/** The worker around a contract: each message is one operation, and its response carries the events of that operation. */
module ContractWorker {
  import opened Wrappers
  import opened Bits
  import opened MethodIdentity
  import opened Contracts
  import opened ContractRuns
  import opened ContractTable
  import opened Answers
  import opened Descriptions

  datatype Op =
    | Instantiate(component: Option<Component>)  // what the bytes describe, if they can be loaded
    | DescribeOp
    | RunGuest(request: Step)
    | SetCardano(cardano: Cardano)
    | ImplementedMethods(id: u32)
    | Unknown

  datatype Reply =
    | Done
    | Result(returned: Returned)
    | Described(instances: seq<(string, Description)>)
    | Names(names: seq<string>)
    | Failed(why: Failure)
    | NoContract
    | UnknownOp
    | NotLoaded

  datatype Response = Response(reply: Reply, events: seq<Event>)

  /** The operations that run the guest. */
  predicate RunsGuest(request: Step) {
    request.Call? || request.Load? || request.Get? || request.Drop?
  }

  predicate Proper(op: Op, guest: GuestRun) {
    Meanwhile(guest.acts) && (op.RunGuest? ==> RunsGuest(op.request))
  }

  function Admit(c: Component, s: State, request: Step): Wrappers.Result<Flight, Refusal>
    requires RunsGuest(request)
  {
    match request
    case Call(instance, func, args) => AdmitCall(c, s, instance, func, args)
    case Load(instance, doc) => AdmitLoad(c, s, instance, doc)
    case Get(id) => AdmitGet(s, id)
    case Drop(id) => AdmitDrop(s, id)
  }

  /** The steps of an operation on a loaded contract; a request that is refused is the one step that changes nothing. */
  function Steps(c: Component, s: State, op: Op, guest: GuestRun): seq<Step>
    requires Proper(op, guest)
  {
    match op
    case RunGuest(request) =>
      if Admit(c, s, request).Ok? then Whole(request, guest.acts, guest.results.Some?) else [request]
    case SetCardano(now) => [Step.SetCardano(now)]
    case _ => []
  }

  function ReplyTo(c: Component, s: State, op: Op, guest: GuestRun): Reply
    requires Proper(op, guest)
  {
    match op
    case RunGuest(request) =>
      (match Answer(Admit(c, s, request), s.nextId, guest.results, c.ext)
       case Ok(returned) => Reply.Result(returned)
       case Err(why) => Failed(why))
    case Unknown => UnknownOp
    case Instantiate(_) => NotLoaded
    case SetCardano(_) => if s.flight.Some? then Failed(Refused(Busy)) else Done
    case DescribeOp => if s.flight.Some? then Failed(Refused(Busy)) else Described(Describe(c, c.exports))
    case ImplementedMethods(id) =>
      if s.flight.Some? then Failed(Refused(Busy))
      else if id !in s.handles then Failed(Refused(UnknownHandle))
      else Names(Listed(s.handles[id].origin.funcs, s.handles[id].store.implemented, c.sha))
  }

  /** The reply while no contract is loaded and none gets loaded: never a success. */
  function WithoutContract(op: Op): (r: Reply)
    ensures Fails(r)
    ensures r == NotLoaded <==> op.Instantiate?
    ensures r == UnknownOp <==> op.Unknown?
  {
    match op
    case Instantiate(_) => NotLoaded
    case Unknown => UnknownOp
    case _ => NoContract
  }

  /** The replies the page gets as errors. */
  predicate Fails(reply: Reply) {
    reply.Failed? || reply.NoContract? || reply.UnknownOp? || reply.NotLoaded?
  }

  /** What goes out with the response: the buffer, or nothing while another request holds the contract. */
  function Shipped(s: State): seq<Event> {
    if s.flight.Some? then [] else s.events
  }

  /**
   A response carries exactly what was in the buffer and what the guest emitted
   for this operation, in order, whatever other messages came in meanwhile; the
   response to a message that comes in while another is awaited carries nothing
   and changes nothing.
   */
  lemma ResponseShipsEvents(c: Component, s: State, op: Op, guest: GuestRun)
    requires Proper(op, guest) && Exec(c, s, Steps(c, s, op, guest)).Some?
    ensures var steps := Steps(c, s, op, guest); var t := Exec(c, s, steps).value;
            if s.flight.Some? then t == s && Shipped(t) == []
            else t.flight.None? && Shipped(t) == s.events + if |steps| > 1 then Emissions(guest.acts, c.ext) else []
  {
    var steps := Steps(c, s, op, guest);
    if |steps| > 1 {
      var all := [op.request] + guest.acts;
      assert steps[..|all|] == all;
      FlightBuffers(c, s, op.request, guest.acts);
    } else if |steps| == 1 {
      assert steps[..0] == [];
      assert s.events + [] == s.events;
    } else {
      assert s.events + [] == s.events;
    }
  }

  /** What the operations that run no guest code do: only the one that sets the context does anything. */
  function AfterPlain(s: State, op: Op): State {
    if op.SetCardano? && s.flight.None? then s.(cardano := op.cardano) else s
  }

  /**
   A reply is no error exactly when what was asked for was done: the request was
   let through and its guest returned what it was asked for, the context is the
   one that was set, the names are those of a live handle.
   */
  lemma RepliesAreEarned(c: Component, s: State, op: Op, guest: GuestRun)
    requires Proper(op, guest) && Exec(c, s, Steps(c, s, op, guest)).Some?
    ensures op.RunGuest? ==>
              (!Fails(ReplyTo(c, s, op, guest))
               <==> && Admit(c, s, op.request).Ok? && guest.results.Some?
                    && (op.request.Get? ==> |guest.results.value| == 1 && guest.results.value[0].Record?))
    ensures op.RunGuest? && Admit(c, s, op.request).Ok? ==>
              Steps(c, s, op, guest) == Whole(op.request, guest.acts, guest.results.Some?)
    ensures op.SetCardano? || op.DescribeOp? ==> (!Fails(ReplyTo(c, s, op, guest)) <==> s.flight.None?)
    ensures op.ImplementedMethods? ==> (!Fails(ReplyTo(c, s, op, guest)) <==> s.flight.None? && op.id in s.handles)
    ensures op.Unknown? <==> ReplyTo(c, s, op, guest) == UnknownOp
    ensures op.Instantiate? <==> ReplyTo(c, s, op, guest) == NotLoaded
    ensures op.DescribeOp? && s.flight.None? ==> ReplyTo(c, s, op, guest) == Described(Describe(c, c.exports))
    ensures (op.SetCardano? || op.DescribeOp? || op.ImplementedMethods?) && s.flight.Some? ==>
              ReplyTo(c, s, op, guest) == Failed(Refused(Busy))
    ensures op.ImplementedMethods? && s.flight.None? && op.id !in s.handles ==>
              ReplyTo(c, s, op, guest) == Failed(Refused(UnknownHandle))
    ensures !op.RunGuest? ==>
              Exec(c, s, Steps(c, s, op, guest)) == Some(AfterPlain(s, op))
  {
    if op.RunGuest? {
      AnsweredWhen(Admit(c, s, op.request), s.nextId, guest.results, c.ext);
    } else if op.SetCardano? {
      OneStep(c, s, Step.SetCardano(op.cardano));
    }
  }

  /** An error of a request that was refused says why, and the request changed nothing. */
  lemma RefusalsAreTold(c: Component, s: State, request: Step, guest: GuestRun)
    requires Proper(RunGuest(request), guest) && Admit(c, s, request).Err?
    ensures ReplyTo(c, s, RunGuest(request), guest) == Failed(Refused(Admit(c, s, request).error))
    ensures Exec(c, s, Steps(c, s, RunGuest(request), guest)) == Some(s)
  {
    AnsweredWhen(Admit(c, s, request), s.nextId, guest.results, c.ext);
    RefusedStep(c, s, request);
  }

  /** The names in a reply are the declared methods of the handle's own instance. */
  lemma NamesAreListed(c: Component, s: State, id: u32, guest: GuestRun, name: string)
    requires Meanwhile(guest.acts) && id in s.handles && s.flight.None? && Distinct(FuncNames(s.handles[id].origin.funcs))
    ensures var reply, funcs := ReplyTo(c, s, Op.ImplementedMethods(id), guest), s.handles[id].origin.funcs;
            && reply.Names?
            && (name in reply.names
                <==> && FindFunc(funcs, name).Some? && FindFunc(funcs, name).value.receiver && IsMethod(name)
                     && HostHash(name, c.sha) in s.handles[id].store.implemented)
  {
    ListedExactly(s.handles[id].origin.funcs, s.handles[id].store.implemented, c.sha, name);
  }

  class Worker {
    var contract: Contract?

    constructor ()
      ensures contract == null
    {
      contract := null;
    }

    ghost predicate Valid()
      reads this, contract
    {
      contract != null ==> contract.Valid()
    }

    ghost function Footprint(): set<object>
      reads this, contract
    {
      if contract == null then {} else Objects(contract)
    }

    /** The loaded contract. */
    ghost function View(): State
      requires contract != null && Valid()
      reads this, contract, Footprint()
    {
      contract.View()
    }

    static method Perform(c: Contract, request: Step, guest: GuestRun) returns (reply: Reply)
      requires c.Valid() && Proper(RunGuest(request), guest)
      modifies c, c.events, c.Ctxs()
      ensures c.Valid() && c.running == old(c.running) && fresh(c.Ctxs() - old(c.Ctxs()))
      ensures Exec(c.component, old(c.View()), Steps(c.component, old(c.View()), RunGuest(request), guest)) == Some(c.View())
      ensures reply == ReplyTo(c.component, old(c.View()), RunGuest(request), guest)
    {
      ghost var before := c.View();
      var r: Wrappers.Result<Returned, Failure>;
      match request {
        case Call(instance, func, args) => r := c.Call(instance, func, args, guest);
        case Load(instance, doc) => r := c.LoadUtxo(instance, doc, guest);
        case Get(id) => r := c.StorageGet(id, guest);
        case Drop(id) => r := c.DropResource(id, guest);
      }
      if Admit(c.component, before, request).Err? {
        RefusedStep(c.component, before, request);
      }
      reply := if r.Ok? then Reply.Result(r.value) else Failed(r.error);
    }

    /** The handler of an operation on the loaded contract, which may be borrowed by a message still being awaited. */
    static method Handle(c: Contract, op: Op, guest: GuestRun) returns (reply: Reply)
      requires c.Valid() && Proper(op, guest)
      modifies c, c.events, c.Ctxs()
      ensures c.Valid() && c.running == old(c.running) && fresh(c.Ctxs() - old(c.Ctxs()))
      ensures Exec(c.component, old(c.View()), Steps(c.component, old(c.View()), op, guest)) == Some(c.View())
      ensures reply == ReplyTo(c.component, old(c.View()), op, guest)
    {
      if op.RunGuest? {
        reply := Perform(c, op.request, guest);
      } else {
        reply := HandlePlain(c, op, guest);
      }
    }

    /** The operations that run no guest code. */
    static method HandlePlain(c: Contract, op: Op, guest: GuestRun) returns (reply: Reply)
      requires c.Valid() && Proper(op, guest) && !op.RunGuest?
      modifies c`cardano
      ensures c.Valid()
      ensures Exec(c.component, old(c.View()), Steps(c.component, old(c.View()), op, guest)) == Some(c.View())
      ensures reply == ReplyTo(c.component, old(c.View()), op, guest)
    {
      match op {
        case SetCardano(now) =>
          OneStep(c.component, c.View(), Step.SetCardano(now));
          var r := c.SetCardano(now);
          reply := if r.Ok? then Done else Failed(r.error);
        case DescribeOp =>
          var r := c.DescribeInstances();
          reply := if r.Ok? then Described(r.value) else Failed(r.error);
        case ImplementedMethods(id) =>
          var r := c.ImplementedMethods(id);
          reply := if r.Ok? then Names(r.value) else Failed(r.error);
        case Unknown => reply := UnknownOp;
        case Instantiate(_) => reply := NotLoaded;
      }
    }

    /** Up to the `await`: the operation, whether or not it fails. */
    method Operate(op: Op, guest: GuestRun) returns (reply: Reply)
      requires Valid() && Proper(op, guest)
      modifies this, Footprint()
      ensures Valid() && fresh(Footprint() - old(Footprint()))
      ensures op.Instantiate? && op.component.Some? ==>
                && contract != null && fresh(contract) && contract.component == op.component.value
                && View() == Initial() && reply == Done
      ensures !(op.Instantiate? && op.component.Some?) ==>
                && contract == old(contract)
                && (contract == null ==> reply == WithoutContract(op))
                && (contract != null ==> Operated(old(View()), contract.component, op, guest, reply, View()))
      ensures contract == null ==> Fails(reply)
    {
      reply := Done;
      if op.Instantiate? && op.component.Some? {
        contract := new Contract(op.component.value);
      } else if contract != null {
        reply := Handle(contract, op, guest);
      } else if op.Unknown? {
        reply := UnknownOp;
      } else {
        reply := if op.Instantiate? then NotLoaded else NoContract;
      }
    }

    static method Ship(c: Contract) returns (events: seq<Event>)
      requires c.Valid()
      modifies c`history, c.events
      ensures c.Valid() && c.Ctxs() == old(c.Ctxs()) && c.Outside() == old(c.Outside())
      ensures events == Shipped(old(c.View())) && c.View() == Apply(c.component, old(c.View()), Drain)
    {
      var drained := c.DrainEvents();
      events := if drained.Some? then drained.value else [];
    }

    /** After it: the buffer of the contract that is loaded now goes out with the response. */
    method Respond(reply: Reply) returns (response: Response)
      requires Valid()
      modifies if contract == null then {} else {contract, contract.events}
      ensures Valid() && Footprint() == old(Footprint())
      ensures response.reply == reply
      ensures contract == null ==> response.events == []
      ensures contract != null ==>
                response.events == Shipped(old(View())) && View() == Apply(contract.component, old(View()), Drain)
    {
      var events: seq<Event> := [];
      if contract != null {
        events := Ship(contract);
      }
      return Response(reply, events);
    }

    /** One message, also while another is being awaited: the operation, and then the buffer goes out with the response. */
    method OnMessage(op: Op, guest: GuestRun) returns (response: Response)
      requires Valid() && Proper(op, guest)
      modifies this, Footprint()
      ensures Valid() && fresh(Footprint() - old(Footprint()))
      ensures op.Instantiate? && op.component.Some? ==>
                && contract != null && fresh(contract) && contract.component == op.component.value
                && View() == Apply(contract.component, Initial(), Drain)
                && response == Response(Done, [])
      ensures !(op.Instantiate? && op.component.Some?) ==>
                && contract == old(contract)
                && (contract == null ==> response == Response(WithoutContract(op), []))
                && (contract != null ==> Answered(old(View()), contract.component, op, guest, response, View()))
      ensures !Fails(response.reply) ==> contract != null
    {
      var reply := Operate(op, guest);
      response := Respond(reply);
    }

    /**
     The same for an operation on `held`, when messages that came in while it is
     awaited have put another contract in its place. It is then that contract
     whose buffer goes out, and the events of the operation stay behind in the
     buffer of the old one.
     */
    method OnMessageReplaced(held: Contract, op: Op, guest: GuestRun) returns (response: Response)
      requires contract != null && contract.Valid() && Proper(op, guest) && !op.Instantiate?
      requires held.Valid() && Objects(contract) !! Objects(held)
      modifies held, held.events, held.Ctxs(), contract`history, contract.events
      ensures held.Valid() && Operated(old(held.View()), held.component, op, guest, response.reply, held.View())
      ensures contract.Valid() && response.events == Shipped(old(contract.View()))
      ensures contract.View() == Apply(contract.component, old(contract.View()), Drain)
    {
      var reply := HandleBeside(held, op, guest, contract);
      var events := ShipBeside(contract, held);
      return Response(reply, events);
    }

    /** The handler does not touch another contract. */
    static method HandleBeside(c: Contract, op: Op, guest: GuestRun, ghost other: Contract) returns (reply: Reply)
      requires c.Valid() && Proper(op, guest) && other.Valid() && Objects(other) !! Objects(c)
      modifies c, c.events, c.Ctxs()
      ensures c.Valid() && Operated(old(c.View()), c.component, op, guest, reply, c.View())
      ensures other.Valid() && other.View() == old(other.View()) && other !in Objects(c) && other.events !in Objects(c)
    {
      reply := Handle(c, op, guest);
      LeftAlone(other);
    }

    /** Nor does draining. */
    static method ShipBeside(c: Contract, ghost other: Contract) returns (events: seq<Event>)
      requires c.Valid() && other.Valid() && c !in Objects(other) && c.events !in Objects(other)
      modifies c`history, c.events
      ensures c.Valid() && events == Shipped(old(c.View())) && c.View() == Apply(c.component, old(c.View()), Drain)
      ensures other.Valid() && other.View() == old(other.View())
    {
      events := Ship(c);
      LeftAlone(other);
    }
  }

  /** A contract none of whose objects has been written to is as it was. */
  twostate lemma LeftAlone(c: Contract)
    requires unchanged(old(Objects(c)))
    ensures c.Valid() == old(c.Valid()) && c.View() == old(c.View()) && Objects(c) == old(Objects(c))
  {
  }

  ghost function Objects(c: Contract): set<object>
    reads c
  {
    {c, c.events} + c.Ctxs() + c.Outside()
  }

  /** The operation's steps lead from `s` to `t`, and the reply is the one for them. */
  ghost predicate Operated(s: State, c: Component, op: Op, guest: GuestRun, reply: Reply, t: State)
    requires Proper(op, guest)
  {
    Exec(c, s, Steps(c, s, op, guest)) == Some(t) && reply == ReplyTo(c, s, op, guest)
  }

  lemma RefusedStep(c: Component, s: State, request: Step)
    requires RunsGuest(request) && Admit(c, s, request).Err?
    ensures Exec(c, s, [request]) == Some(s)
  {
    OneStep(c, s, request);
  }

  lemma OneStep(c: Component, s: State, step: Step)
    requires Enabled(s, step)
    ensures Exec(c, s, [step]) == Some(Apply(c, s, step))
  {
    ExecAppend(c, s, [], step);
    assert [] + [step] == [step];
  }

  /** The operation's steps and a drain lead from `s` to `t`, and the response says so. */
  ghost predicate Answered(s: State, c: Component, op: Op, guest: GuestRun, response: Response, t: State)
    requires Proper(op, guest)
  {
    var done := Exec(c, s, Steps(c, s, op, guest));
    done.Some? && response == Response(ReplyTo(c, s, op, guest), Shipped(done.value)) && t == Apply(c, done.value, Drain)
  }
}
