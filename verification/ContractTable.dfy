/**
 The contract object itself: its table of handles, the stores those own, and
 the event buffer all of them share, updated in place. Each method is a run of
 the step relation, in which the page may ask for anything meanwhile.
 */
module ContractTable {
  import opened Wrappers
  import opened Bits
  import opened Values
  import opened Json
  import opened MethodIdentity
  import opened Contracts
  import opened ContractRuns
  import opened Descriptions

  class EventBuffer {
    var items: seq<Event>

    constructor ()
      ensures items == []
    {
      items := [];
    }
  }

  /** The data of one store. */
  class Ctx {
    ghost const number: nat
    const cardano: Cardano
    const events: EventBuffer
    var implemented: set<MethodHash>

    constructor (ghost number: nat, cardano: Cardano, events: EventBuffer)
      ensures this.events == events && View() == Store(number, cardano, {})
    {
      this.number, this.cardano, this.events, implemented := number, cardano, events, {};
    }

    ghost function View(): Store
      reads this
    {
      Store(number, cardano, implemented)
    }

    method ImplementsMethod(hash: MethodHash)
      modifies this
      ensures implemented == old(implemented) + {hash}
    {
      implemented := implemented + {hash};
    }

    method EmitEvent(instance: string, name: string, params: seq<Val>, ext: External)
      modifies events
      ensures events.items == old(events.items) + [Event(instance, name, AllToJson(params, ext))]
    {
      var args: seq<Json> := [];
      assert params[0..] == params;
      for i := 0 to |params|
        invariant args + AllToJson(params[i..], ext) == AllToJson(params, ext)
      {
        assert params[i..][1..] == params[i + 1..];
        args := args + [ValToJson(params[i], ext)];
      }
      assert args + [] == args;
      events.items := events.items + [Event(instance, name, args)];
    }
  }

  datatype HandleRef = HandleRef(origin: UtxoExport, ctx: Ctx)

  /** Where the guest is running. */
  datatype Running =
    | InNew(handle: HandleRef, given: seq<Val>)
    | InCall(id: u32, given: seq<Val>)
    | InRead(id: u32)
    | InDrop(ctx: Ctx)

  /**
   What happens while the guest is run: its host calls and the page's requests
   in their order, and the guest's results unless it fails.
   */
  datatype GuestRun = GuestRun(acts: seq<Step>, results: Option<seq<Val>>)

  predicate Meanwhile(acts: seq<Step>) {
    forall i | 0 <= i < |acts| :: !acts[i].Finish?
  }

  datatype Failure = Refused(why: Refusal) | GuestFailed

  /** The text a request returns, as the document it prints. */
  datatype Returned = Nothing | Document(json: Json)

  class Contract {
    const component: Component
    const events: EventBuffer
    var handles: map<u32, HandleRef>
    var nextId: u32
    var cardano: Cardano
    var borrowed: bool  // the flag of the object's mutable borrow, held as long as a request runs the guest
    // where the guest runs, and the protocol's history; `View` takes everything else from the fields above
    ghost var running: Option<Running>
    ghost var history: State

    ghost function Ctxs(): set<Ctx>
      reads this
    {
      set id | id in handles :: handles[id].ctx
    }

    /** The store of a mint or a drop in flight, outside the table. */
    ghost function Outside(): set<Ctx>
      reads this
    {
      match running
      case Some(InNew(h, _)) => {h.ctx}
      case Some(InDrop(ctx)) => {ctx}
      case _ => {}
    }

    ghost predicate Valid()
      reads this
    {
      && (forall a, b | a in handles && b in handles && a != b :: handles[a].ctx != handles[b].ctx)
      && Ctxs() !! Outside()
      && (forall x | x in Ctxs() + Outside() :: x.events == events)
      && borrowed == running.Some?
      && match running
         case Some(InCall(id, _)) => id in handles
         case Some(InRead(id)) => id in handles
         case _ => true
    }

    ghost function Records(): map<u32, Handle>
      reads this, Ctxs()
    {
      map id | id in handles :: Handle(handles[id].origin, handles[id].ctx.View())
    }

    ghost function Flying(): Option<Flight>
      reads this, Outside()
    {
      match running
      case None => None
      case Some(InNew(h, given)) => Some(Minting(Handle(h.origin, h.ctx.View()), given))
      case Some(InCall(id, given)) => Some(Calling(id, given))
      case Some(InRead(id)) => Some(Reading(id))
      case Some(InDrop(ctx)) => Some(Dropping(ctx.View()))
    }

    ghost function View(): State
      reads this, events, Ctxs(), Outside()
    {
      history.(handles := Records(), nextId := nextId, cardano := cardano, events := events.items, flight := Flying())
    }

    constructor (component: Component)
      ensures Valid() && running == None && View() == Initial()
      ensures this.component == component && fresh(events) && Ctxs() == {}
    {
      this.component := component;
      events := new EventBuffer();
      handles, nextId, cardano := map[], 0, Cardano(0, 0);
      borrowed, running, history := false, None, Initial();
    }

    /** The store the guest is running in. */
    ghost function RunningIn(): Ctx
      requires Valid() && running.Some?
      reads this
    {
      match running.value
      case InNew(h, _) => h.ctx
      case InCall(id, _) => handles[id].ctx
      case InRead(id) => handles[id].ctx
      case InDrop(ctx) => ctx
    }

    method HostDeclare(ctx: Ctx, hash: MethodHash)
      requires Valid() && running.Some? && ctx == RunningIn()
      modifies ctx, this`history
      ensures Valid() && InFlight(old(View())) && View() == DeclareMethod(old(View()), hash)
    {
      assert InFlight(View()) && Current(View()) == ctx.View();
      ctx.ImplementsMethod(hash);
      history := history.(declared := history.declared + {Declaration(ctx.number, hash)});
      assert Records() == WithCurrent(old(View()), ctx.View()).handles;
      assert Flying() == WithCurrent(old(View()), ctx.View()).flight;
    }

    method HostEmit(ctx: Ctx, instance: string, name: string, params: seq<Val>)
      requires Valid() && running.Some? && ctx == RunningIn()
      modifies events, this`history
      ensures Valid() && View() == Contracts.EmitEvent(old(View()), Event(instance, name, AllToJson(params, component.ext)))
    {
      ctx.EmitEvent(instance, name, params, component.ext);
      history := history.(emitted := history.emitted + [events.items[|events.items| - 1]]);
      assert Records() == old(Records());
    }

    /** A request of the page finds the contract borrowed: it fails, and a drain comes back empty. */
    ghost method Repelled(request: Step)
      requires Valid() && running.Some? && !request.Declare? && !request.Emit? && !request.Finish?
      modifies this`history
      ensures Valid()
      ensures Enabled(old(View()), request) && View() == Apply(component, old(View()), request)
    {
      if request.Drain? {
        history := history.(drained := history.drained + [[]]);
      }
      assert Records() == old(Records());
    }

    method HostCall(ctx: Ctx, act: Step)
      requires Valid() && running.Some? && ctx == RunningIn() && !act.Finish?
      modifies ctx, events, this`history
      ensures Valid()
      ensures Enabled(old(View()), act) && View() == Apply(component, old(View()), act)
    {
      assert InFlight(View());
      if act.Declare? {
        HostDeclare(ctx, act.hash);
      } else if act.Emit? {
        HostEmit(ctx, act.instance, act.name, act.params);
      } else {
        Repelled(act);
      }
    }

    /** Runs the guest to its end. */
    method RunGuest(ctx: Ctx, acts: seq<Step>)
      requires Valid() && running.Some? && ctx == RunningIn() && Meanwhile(acts)
      modifies ctx, events, this`history
      ensures Valid()
      ensures Exec(component, old(View()), acts) == Some(View())
    {
      for i := 0 to |acts|
        invariant Valid() && Exec(component, old(View()), acts[..i]) == Some(View())
      {
        HostCall(ctx, acts[i]);
        ExecAppend(component, old(View()), acts[..i], acts[i]);
        assert acts[..i] + [acts[i]] == acts[..i + 1];
      }
      assert acts[..|acts|] == acts;
    }

    // The phases of a request

    /** A fresh store with the contract's ledger context, its own empty set and the shared buffer. */
    method Instantiate(origin: UtxoExport, given: seq<Val>) returns (ctx: Ctx)
      requires Valid() && running.None?
      modifies this`running, this`borrowed, this`history
      ensures Valid() && fresh(ctx) && running == Some(InNew(HandleRef(origin, ctx), given))
      ensures View() == StartMint(old(View()), Ok(Minting(Handle(origin, FreshStore(old(View()))), given)))
    {
      ctx := new Ctx(history.stores, cardano, events);
      borrowed, running := true, Some(InNew(HandleRef(origin, ctx), given));
      history := history.(stores := history.stores + 1);
      assert Records() == old(Records());
    }

    /** The new handle enters the table under the next id. */
    method Register(origin: UtxoExport, ctx: Ctx) returns (id: u32)
      requires Valid() && running.Some? && running.value.InNew? && running.value.handle == HandleRef(origin, ctx)
      modifies this`running, this`borrowed, this`history, this`handles, this`nextId
      ensures Valid() && running.None? && Ctxs() <= old(Ctxs()) + {ctx}
      ensures id == old(nextId) && View() == FinishFlight(old(View()), true)
    {
      ghost var before, handle := Records(), Handle(origin, ctx.View());
      id := nextId;
      nextId := (nextId + 1) % TWO_32;
      handles := handles[id := HandleRef(origin, ctx)];
      borrowed, running := false, None;
      history := history.(minted := history.minted + [id]);
      assert Ctxs() <= old(Ctxs()) + {ctx};
      assert Records() == before[id := handle];
    }

    /** The guest is no longer running, and no id is issued. */
    method Leave(ok: bool)
      requires Valid() && running.Some? && (running.value.InNew? ==> !ok)
      modifies this`running, this`borrowed
      ensures Valid() && running.None? && View() == FinishFlight(old(View()), ok)
    {
      borrowed, running := false, None;
      assert Records() == old(Records());
    }

    /** The guest begins to run in the store of a handle. */
    method Enter(id: u32, given: seq<Val>, instance: string, func: string)
      requires Valid() && running.None? && id in handles
      modifies this`running, this`borrowed, this`history
      ensures Valid() && running == Some(InCall(id, given))
      ensures View() == StartCall(old(View()), Ok(Calling(id, given)), instance, func)
    {
      borrowed, running := true, Some(InCall(id, given));
      history := history.(invoked := history.invoked + [Invocation(id, handles[id].ctx.number, instance, func)]);
      assert Records() == old(Records());
    }

    method EnterRead(id: u32)
      requires Valid() && running.None? && id in handles
      modifies this`running, this`borrowed
      ensures Valid() && running == Some(InRead(id)) && View() == StartGet(old(View()), Ok(Reading(id)))
    {
      borrowed, running := true, Some(InRead(id));
      assert Records() == old(Records());
    }

    /** The handle leaves the table before its destructor runs. */
    method TakeOut(id: u32) returns (ctx: Ctx)
      requires Valid() && running.None? && id in handles
      modifies this`handles, this`running, this`borrowed, this`history
      ensures Valid() && ctx == old(handles[id].ctx) && running == Some(InDrop(ctx))
      ensures ctx in old(Ctxs()) && Ctxs() <= old(Ctxs())
      ensures View() == StartDrop(old(View()), Ok(Dropping(old(handles[id].ctx.View()))), id)
    {
      ctx := handles[id].ctx;
      handles := handles - {id};
      borrowed, running := true, Some(InDrop(ctx));
      history := history.(dropped := history.dropped + {id});
      assert Records() == old(Records()) - {id};
    }

    /** What `call` with a constructor and `load_utxo` share; `request` is the step that was admitted. */
    method Mint(origin: UtxoExport, given: seq<Val>, guest: GuestRun, ghost request: Step)
        returns (r: Result<Returned, Failure>)
      requires Valid() && running.None? && Meanwhile(guest.acts)
      requires Enabled(View(), request)
      requires Apply(component, View(), request)
            == StartMint(View(), Ok(Minting(Handle(origin, FreshStore(View())), given)))
      modifies this, events, Ctxs()
      ensures Valid() && running.None? && fresh(Ctxs() - old(Ctxs()))
      ensures Exec(component, old(View()), Whole(request, guest.acts, guest.results.Some?)) == Some(View())
      ensures r == if guest.results.Some? then Ok(Document(Array([HandleArgument(old(nextId))]))) else Err(GuestFailed)
    {
      var ctx := Instantiate(origin, given);
      RunGuest(ctx, guest.acts);
      WholeRun(component, old(View()), request, guest.acts, View(), guest.results.Some?);
      if guest.results.None? {
        Leave(false);
        return Err(GuestFailed);
      }
      var id := Register(origin, ctx);
      return Ok(Document(Array([HandleArgument(id)])));
    }

    // The requests of the page

    /** What a request must have done, given how it was admitted: nothing, or one whole run of the guest. */
    twostate predicate Performed(request: Step, admitted: Result<Flight, Refusal>, guest: GuestRun)
      requires old(Valid()) && Valid() && Meanwhile(guest.acts)
      reads this, events, Ctxs(), Outside()
    {
      if admitted.Err? then View() == old(View())
      else Exec(component, old(View()), Whole(request, guest.acts, guest.results.Some?)) == Some(View())
    }

    method Call(instance: string, func: string, args: seq<Json>, guest: GuestRun) returns (r: Result<Returned, Failure>)
      requires Valid() && Meanwhile(guest.acts)
      modifies this, events, Ctxs()
      ensures Valid() && running == old(running) && fresh(Ctxs() - old(Ctxs()))
      ensures Performed(Step.Call(instance, func, args), AdmitCall(component, old(View()), instance, func, args), guest)
      ensures r == Answer(AdmitCall(component, old(View()), instance, func, args), old(nextId),
                          guest.results, component.ext)
    {
      if borrowed {
        return Err(Refused(Busy));
      }
      if instance !in component.instances {
        return Err(Refused(UnknownInstance));
      }
      var utxo := component.instances[instance];
      var found := FindFunc(utxo.funcs, func);
      if found.None? {
        return Err(Refused(NoSuchFunction));
      }
      if IsConstructor(func) {
        if !found.value.mints {
          return Err(Refused(NotAConstructor));
        }
        var params := ConvertArgs(ParamTypes(found.value.params), 0, args, component.ext);
        if params.Err? {
          return Err(Refused(BadArguments(params.error)));
        }
        r := Mint(utxo, params.value, guest, Step.Call(instance, func, args));
        return;
      }
      if !found.value.receiver {
        return Err(Refused(NotAMethod));
      }
      var id := HandleId(args);
      if id.None? {
        return Err(Refused(NoHandleArgument));
      }
      var params := ConvertArgs(ParamTypes(found.value.params), 1, args[1..], component.ext);
      if params.Err? {
        return Err(Refused(BadArguments(params.error)));
      }
      if id.value !in handles {
        return Err(Refused(UnknownHandle));
      }
      if HostHash(func, component.sha) !in handles[id.value].ctx.implemented {
        return Err(Refused(NotDeclared));
      }
      r := Invoke(id.value, params.value, guest, instance, func, args);
    }

    /** The part of `call` behind the gate. */
    method Invoke(id: u32, given: seq<Val>, guest: GuestRun, instance: string, func: string, ghost args: seq<Json>)
        returns (r: Result<Returned, Failure>)
      requires Valid() && running.None? && Meanwhile(guest.acts)
      requires AdmitCall(component, View(), instance, func, args) == Ok(Calling(id, given))
      modifies this`running, this`borrowed, this`history, events, Ctxs()
      ensures Valid() && running.None? && Ctxs() == old(Ctxs())
      ensures Exec(component, old(View()), Whole(Step.Call(instance, func, args), guest.acts, guest.results.Some?))
           == Some(View())
      ensures r == if guest.results.Some? then Ok(Document(Array(AllToJson(guest.results.value, component.ext))))
                   else Err(GuestFailed)
    {
      Enter(id, given, instance, func);
      RunGuest(handles[id].ctx, guest.acts);
      WholeRun(component, old(View()), Step.Call(instance, func, args), guest.acts, View(), guest.results.Some?);
      Leave(guest.results.Some?);
      if guest.results.None? {
        return Err(GuestFailed);
      }
      return Ok(Document(Array(AllToJson(guest.results.value, component.ext))));
    }

    method LoadUtxo(instance: string, doc: Json, guest: GuestRun) returns (r: Result<Returned, Failure>)
      requires Valid() && Meanwhile(guest.acts)
      modifies this, events, Ctxs()
      ensures Valid() && running == old(running) && fresh(Ctxs() - old(Ctxs()))
      ensures Performed(Load(instance, doc), AdmitLoad(component, old(View()), instance, doc), guest)
      ensures r == Answer(AdmitLoad(component, old(View()), instance, doc), old(nextId), guest.results, component.ext)
    {
      if borrowed {
        return Err(Refused(Busy));
      }
      if instance !in component.instances {
        return Err(Refused(UnknownInstance));
      }
      var utxo := component.instances[instance];
      if utxo.storage.None? {
        return Err(Refused(NoStorage));
      }
      var record := JsonToVal(Type.Record(utxo.storage.value), doc, component.ext);
      if record.Err? {
        return Err(Refused(BadArguments(record.error)));
      }
      r := Mint(utxo, [record.value], guest, Load(instance, doc));
    }

    /** The guest's `storage` function gives one record; its fields become one object. */
    method StorageGet(id: u32, guest: GuestRun) returns (r: Result<Returned, Failure>)
      requires Valid() && Meanwhile(guest.acts)
      modifies this`running, this`borrowed, this`history, events, Ctxs()
      ensures Valid() && running == old(running) && Ctxs() == old(Ctxs())
      ensures Performed(Get(id), AdmitGet(old(View()), id), guest)
      ensures r == Answer(AdmitGet(old(View()), id), nextId, guest.results, component.ext)
    {
      if borrowed {
        return Err(Refused(Busy));
      }
      if id !in handles {
        return Err(Refused(UnknownHandle));
      }
      if handles[id].origin.storage.None? {
        return Err(Refused(NoStorage));
      }
      ReadStorage(id, guest);
      r := StorageDocument(id, guest.results);
    }

    /** The part of `storage_get` that runs the guest. */
    method ReadStorage(id: u32, guest: GuestRun)
      requires Valid() && running.None? && Meanwhile(guest.acts)
      requires AdmitGet(View(), id) == Ok(Reading(id))
      modifies this`running, this`borrowed, this`history, events, Ctxs()
      ensures Valid() && running.None? && Ctxs() == old(Ctxs())
      ensures Exec(component, old(View()), Whole(Get(id), guest.acts, guest.results.Some?)) == Some(View())
    {
      EnterRead(id);
      RunGuest(handles[id].ctx, guest.acts);
      WholeRun(component, old(View()), Get(id), guest.acts, View(), guest.results.Some?);
      Leave(guest.results.Some?);
    }

    /** What `storage` must give is one record. */
    method StorageDocument(id: u32, results: Option<seq<Val>>) returns (r: Result<Returned, Failure>)
      ensures r == Answer(Ok(Reading(id)), 0, results, component.ext)
    {
      if results.None? || |results.value| != 1 || !results.value[0].Record? {
        return Err(GuestFailed);
      }
      var obj := FieldsObject(results.value[0].members);
      return Ok(Document(obj));
    }

    /** Field by field into an object. */
    method FieldsObject(fields: seq<Member>) returns (obj: Json)
      ensures obj == Object(MembersToJson(fields, component.ext))
    {
      var entries: map<string, Json> := map[];
      assert fields[0..] == fields;
      for i := 0 to |fields|
        invariant entries + MembersToJson(fields[i..], component.ext) == MembersToJson(fields, component.ext)
      {
        assert fields[i..][1..] == fields[i + 1..];
        entries := entries[fields[i].name := ValToJson(fields[i].val, component.ext)];
      }
      assert entries + map[] == entries;
      obj := Object(entries);
    }

    method DropResource(id: u32, guest: GuestRun) returns (r: Result<Returned, Failure>)
      requires Valid() && Meanwhile(guest.acts)
      modifies this`handles, this`running, this`borrowed, this`history, events, Ctxs()
      ensures Valid() && running == old(running) && Ctxs() <= old(Ctxs())
      ensures Performed(Drop(id), AdmitDrop(old(View()), id), guest)
      ensures r == Answer(AdmitDrop(old(View()), id), nextId, guest.results, component.ext)
    {
      if borrowed {
        return Err(Refused(Busy));
      }
      if id !in handles {
        return Err(Refused(UnknownHandle));
      }
      var ctx := TakeOut(id);
      RunGuest(ctx, guest.acts);
      WholeRun(component, old(View()), Drop(id), guest.acts, View(), guest.results.Some?);
      Leave(guest.results.Some?);
      return if guest.results.Some? then Ok(Nothing) else Err(GuestFailed);
    }

    /** The buffer, or nothing at all while the contract is borrowed. */
    method DrainEvents() returns (batch: Option<seq<Event>>)
      requires Valid()
      modifies events, this`history
      ensures Valid() && View() == Apply(component, old(View()), Drain)
      ensures batch == if borrowed then None else Some(old(events.items))
    {
      if borrowed {
        Repelled(Drain);
        return None;
      }
      batch := Some(events.items);
      history := history.(drained := history.drained + [events.items]);
      events.items := [];
      assert Records() == old(Records());
    }

    method SetCardano(now: Cardano) returns (r: Result<Returned, Failure>)
      requires Valid()
      modifies this`cardano
      ensures Valid() && View() == Apply(component, old(View()), Step.SetCardano(now))
      ensures r == if borrowed then Err(Refused(Busy)) else Ok(Nothing)
    {
      if borrowed {
        return Err(Refused(Busy));
      }
      cardano := now;
      assert Records() == old(Records());
      return Ok(Nothing);
    }

    /** The exported instances that own a `utxo`, in order, with their constructors, methods and storage fields. */
    method DescribeInstances() returns (r: Result<seq<(string, Description)>, Failure>)
      requires Valid()
      ensures r == if View().flight.Some? then Err(Refused(Busy)) else Ok(Describe(component, component.exports))
    {
      if borrowed {
        return Err(Refused(Busy));
      }
      var instances, names := [], component.exports;
      assert names[0..] == names;
      for i := 0 to |names|
        invariant instances + Describe(component, names[i..]) == Describe(component, names)
      {
        assert names[i..][1..] == names[i + 1..];
        if names[i] in component.instances {
          instances := instances + [(names[i], DescribeInstance(component.instances[names[i]]))];
        }
      }
      assert instances + [] == instances;
      return Ok(instances);
    }

    /** The export names the page may offer for a handle. */
    method ImplementedMethods(id: u32) returns (r: Result<seq<string>, Failure>)
      requires Valid()
      ensures r == if View().flight.Some? then Err(Refused(Busy))
                   else if id !in View().handles then Err(Refused(UnknownHandle))
                   else Ok(Listed(View().handles[id].origin.funcs, View().handles[id].store.implemented, component.sha))
    {
      if borrowed {
        return Err(Refused(Busy));
      }
      if id !in handles {
        return Err(Refused(UnknownHandle));
      }
      var declared, funcs, names := handles[id].ctx.implemented, handles[id].origin.funcs, [];
      assert funcs[0..] == funcs;
      for i := 0 to |funcs|
        invariant names + Listed(funcs[i..], declared, component.sha) == Listed(funcs, declared, component.sha)
      {
        assert funcs[i..][1..] == funcs[i + 1..];
        if IsMethod(funcs[i].name) && funcs[i].receiver && HostHash(funcs[i].name, component.sha) in declared {
          names := names + [funcs[i].name];
        }
      }
      assert names + [] == names;
      return Ok(names);
    }
  }

  /** What the page gets back: the new handle, the results of a call, or the fields of a storage record as one object. */
  function Answer(admitted: Result<Flight, Refusal>, nextId: u32, results: Option<seq<Val>>, ext: External)
    : Result<Returned, Failure>
  {
    match admitted
    case Err(e) => Err(Refused(e))
    case Ok(f) =>
      if results.None? then Err(GuestFailed)
      else match f
        case Minting(_, _) => Ok(Document(Array([HandleArgument(nextId)])))
        case Calling(_, _) => Ok(Document(Array(AllToJson(results.value, ext))))
        case Reading(_) =>
          if |results.value| == 1 && results.value[0].Record?
          then Ok(Document(Object(MembersToJson(results.value[0].members, ext)))) else Err(GuestFailed)
        case Dropping(_) => Ok(Nothing)
  }

  /**
   The document the page gets for a handle's storage, sent back to load a handle
   of the same instance, hands the guest the record it was read from with nested
   absent options collapsed; so the same record exactly when there are none.
   */
  lemma StorageRoundTrip(c: Component, s: State, id: u32, read: seq<Member>, t: State, instance: string)
    requires AdmitGet(s, id).Ok? && t.flight.None?
    requires instance in c.instances && c.instances[instance] == s.handles[id].origin
    requires var ty := Type.Record(s.handles[id].origin.storage.value); JsonType(ty) && WellTyped(ty, Val.Record(read))
    ensures var answer := Answer(AdmitGet(s, id), s.nextId, Some([Val.Record(read)]), c.ext);
            && answer.Ok? && answer.value.Document?
            && var loaded := AdmitLoad(c, t, instance, answer.value.json);
            && loaded == Ok(Minting(Handle(c.instances[instance], FreshStore(t)), [Collapse(Val.Record(read))]))
            && (loaded.value.given == [Val.Record(read)] <==> NoNestedNone(Val.Record(read)))
  {
    StorageReloads(c, t, instance, s.handles[id].origin.storage.value, read);
  }
}
