/** Whole-run results about the contract table, the method gate and the event buffer. */
module ContractRuns {
  import opened Wrappers
  import opened Bits
  import opened Values
  import opened Json
  import opened MethodIdentity
  import opened Contracts

  // The invariant

  /** Ids are issued in order, modulo 2^32. */
  ghost predicate Numbered(minted: seq<u32>, nextId: u32) {
    && (forall i | 0 <= i < |minted| :: minted[i] == i % TWO_32)
    && nextId == |minted| % TWO_32
  }

  /** Handles and dropped ids were issued; until the counter wraps, what was issued and not dropped is live. */
  ghost predicate Table(handles: map<u32, Handle>, minted: seq<u32>, dropped: set<u32>) {
    && (forall id | id in handles :: id in minted)
    && (forall id | id in dropped :: id in minted)
    && (|minted| <= TWO_32 ==> forall id | id in minted :: id in handles <==> id !in dropped)
  }

  /** The store has declared exactly what its set holds. */
  ghost predicate Own(store: Store, stores: nat, declared: set<Declaration>) {
    && store.number < stores
    && forall h :: h in store.implemented <==> Declaration(store.number, h) in declared
  }

  /** No two handles share a store, and each store has declared what its set holds. */
  ghost predicate Separate(handles: map<u32, Handle>, stores: nat, declared: set<Declaration>) {
    && (forall id | id in handles :: Own(handles[id].store, stores, declared))
    && (forall a, b | a in handles && b in handles && a != b :: handles[a].store.number != handles[b].store.number)
    && forall d | d in declared :: d.store < stores
  }

  /** A store outside the table, of a mint or a drop in flight. */
  ghost predicate Apart(store: Store, handles: map<u32, Handle>, stores: nat, declared: set<Declaration>) {
    Own(store, stores, declared) && forall id | id in handles :: handles[id].store.number != store.number
  }

  ghost predicate FlightSound(flight: Option<Flight>, handles: map<u32, Handle>, stores: nat, declared: set<Declaration>) {
    match flight
    case None => true
    case Some(f) =>
      match f
      case Minting(h, _) => Apart(h.store, handles, stores, declared)
      case Calling(id, _) => id in handles
      case Reading(id) => id in handles
      case Dropping(store) => Apart(store, handles, stores, declared)
  }

  /** Each method run was declared by the very store it ran in. */
  ghost predicate Gated(invoked: seq<Invocation>, declared: set<Declaration>, sha: bytes -> Digest) {
    forall i | 0 <= i < |invoked| :: Declaration(invoked[i].store, HostHash(invoked[i].func, sha)) in declared
  }

  function Flat(batches: seq<seq<Event>>): seq<Event> {
    if batches == [] then [] else Flat(batches[..|batches| - 1]) + batches[|batches| - 1]
  }

  ghost predicate Inv(c: Component, s: State) {
    && Numbered(s.minted, s.nextId)
    && Table(s.handles, s.minted, s.dropped)
    && Separate(s.handles, s.stores, s.declared)
    && FlightSound(s.flight, s.handles, s.stores, s.declared)
    && Gated(s.invoked, s.declared, c.sha)
    && Flat(s.drained) + s.events == s.emitted
  }

  // Every step keeps it

  lemma MintStartKeeps(c: Component, s: State, r: Result<Flight, Refusal>)
    requires Inv(c, s) && (r.Ok? ==> s.flight.None? && r.value.Minting? && r.value.handle.store == FreshStore(s))
    ensures Inv(c, StartMint(s, r))
  {
  }

  lemma CallStartKeeps(c: Component, s: State, instance: string, func: string, args: seq<Json>)
    requires Inv(c, s)
    ensures Inv(c, Apply(c, s, Call(instance, func, args)))
  {
    var r := AdmitCall(c, s, instance, func, args);
    if r.Ok? && r.value.Calling? {
      var id := r.value.id;
      assert Own(s.handles[id].store, s.stores, s.declared);
    } else {
      MintStartKeeps(c, s, r);
    }
  }

  lemma DropStartKeeps(c: Component, s: State, id: u32)
    requires Inv(c, s)
    ensures Inv(c, Apply(c, s, Drop(id)))
  {
    if AdmitDrop(s, id).Ok? {
      assert Own(s.handles[id].store, s.stores, s.declared);
    }
  }

  lemma FlatSnoc(batches: seq<seq<Event>>, batch: seq<Event>)
    ensures Flat(batches + [batch]) == Flat(batches) + batch
  {
    assert (batches + [batch])[..|batches|] == batches;
  }

  /** Draining moves the buffer to the end of what was drained. */
  lemma DrainKeepsEvents(s: State)
    ensures Flat(DrainEvents(s).drained) + DrainEvents(s).events == Flat(s.drained) + s.events
  {
    FlatSnoc(s.drained, if s.flight.Some? then [] else s.events);
  }

  lemma DrainKeeps(c: Component, s: State)
    requires Inv(c, s)
    ensures Inv(c, Apply(c, s, Drain))
  {
    DrainKeepsEvents(s);
  }

  lemma DeclareKeeps(c: Component, s: State, h: MethodHash)
    requires Inv(c, s) && InFlight(s)
    ensures Inv(c, DeclareMethod(s, h))
  {
    var t, n := DeclareMethod(s, h), Current(s).number;
    CurrentIsOwn(c, s);
    assert Own(Current(t), t.stores, t.declared);
    forall id | id in t.handles && t.handles[id].store.number != n
      ensures Own(t.handles[id].store, t.stores, t.declared)
    {
      assert t.handles[id] == s.handles[id] && Own(s.handles[id].store, s.stores, s.declared);
    }
  }

  lemma CurrentIsOwn(c: Component, s: State)
    requires Inv(c, s) && InFlight(s)
    ensures Own(Current(s), s.stores, s.declared)
  {
  }

  lemma EmitKeeps(c: Component, s: State, e: Event)
    requires Inv(c, s)
    ensures Inv(c, EmitEvent(s, e))
  {
    assert Flat(s.drained) + (s.events + [e]) == Flat(s.drained) + s.events + [e];
  }

  lemma MintEndKeeps(c: Component, s: State)
    requires Inv(c, s) && s.flight.Some? && s.flight.value.Minting?
    ensures Inv(c, FinishFlight(s, true))
  {
    MintEndKeepsTable(s.handles, s.minted, s.dropped, s.nextId, s.flight.value.handle);
  }

  lemma MintEndKeepsTable(handles: map<u32, Handle>, minted: seq<u32>, dropped: set<u32>, nextId: u32, h: Handle)
    requires Numbered(minted, nextId) && Table(handles, minted, dropped)
    ensures Numbered(minted + [nextId], (nextId + 1) % TWO_32)
    ensures Table(handles[nextId := h], minted + [nextId], dropped)
  {
    var after := minted + [nextId];
    NextIdFresh(minted, nextId);
    assert forall id :: id in after <==> id in minted || id == nextId;
  }

  /** The next id was issued before exactly when the counter has been all the way round. */
  lemma NextIdFresh(minted: seq<u32>, nextId: u32)
    requires Numbered(minted, nextId)
    ensures nextId in minted <==> |minted| >= TWO_32
  {
    if |minted| >= TWO_32 {
      assert minted[|minted| - TWO_32] == (|minted| - TWO_32) % TWO_32 == nextId;
    }
  }

  lemma StepKeepsInv(c: Component, s: State, step: Step)
    requires Inv(c, s) && Enabled(s, step)
    ensures Inv(c, Apply(c, s, step))
  {
    match step
    case Call(instance, func, args) => CallStartKeeps(c, s, instance, func, args);
    case Load(instance, doc) => MintStartKeeps(c, s, AdmitLoad(c, s, instance, doc));
    case Get(_) =>
    case Drop(id) => DropStartKeeps(c, s, id);
    case SetCardano(_) =>
    case Drain => DrainKeeps(c, s);
    case Declare(h) => DeclareKeeps(c, s, h);
    case Emit(instance, name, params) => EmitKeeps(c, s, Event(instance, name, AllToJson(params, c.ext)));
    case Finish(ok) =>
      if s.flight.value.Minting? && ok { MintEndKeeps(c, s); }
  }

  lemma {:induction false} RunKeepsInv(c: Component, s: State, steps: seq<Step>)
    requires Inv(c, s) && Exec(c, s, steps).Some?
    ensures Inv(c, Exec(c, s, steps).value)
    decreases |steps|
  {
    if steps != [] {
      RunKeepsInv(c, s, steps[..|steps| - 1]);
      StepKeepsInv(c, Exec(c, s, steps[..|steps| - 1]).value, steps[|steps| - 1]);
    }
  }

  lemma EveryRun(c: Component, steps: seq<Step>)
    requires Exec(c, Initial(), steps).Some?
    ensures Inv(c, Exec(c, Initial(), steps).value)
  {
    RunKeepsInv(c, Initial(), steps);
  }

  // Events

  /** Nothing emitted is lost, duplicated or reordered, whatever fails: the batches drained so far, then the buffer. */
  lemma {:induction false} EventsConserved(c: Component, steps: seq<Step>)
    requires Exec(c, Initial(), steps).Some?
    ensures var s := Exec(c, Initial(), steps).value;
            Flat(s.drained) + s.events == s.emitted && s.emitted == Emissions(steps, c.ext)
  {
    EveryRun(c, steps);
    EmittedIsEmissions(c, steps);
  }

  /** The events of the guest's own steps, in order. */
  function Emissions(steps: seq<Step>, ext: External): seq<Event> {
    if steps == [] then []
    else
      var last := steps[|steps| - 1];
      Emissions(steps[..|steps| - 1], ext)
      + if last.Emit? then [Event(last.instance, last.name, AllToJson(last.params, ext))] else []
  }

  lemma {:induction false} EmittedIsEmissions(c: Component, steps: seq<Step>)
    requires Exec(c, Initial(), steps).Some?
    ensures Exec(c, Initial(), steps).value.emitted == Emissions(steps, c.ext)
    decreases |steps|
  {
    if steps != [] {
      var before := steps[..|steps| - 1];
      EmittedIsEmissions(c, before);
      EmittedByStep(c, Exec(c, Initial(), before).value, steps[|steps| - 1]);
    }
  }

  lemma EmittedByStep(c: Component, s: State, step: Step)
    requires Enabled(s, step)
    ensures Apply(c, s, step).emitted
         == s.emitted + if step.Emit? then [Event(step.instance, step.name, AllToJson(step.params, c.ext))] else []
  {
  }

  /** A run that drains nothing leaves its events in the buffer, behind what was there. */
  lemma {:induction false} RunBuffers(c: Component, s: State, steps: seq<Step>)
    requires Exec(c, s, steps).Some? && Drain !in steps
    ensures Exec(c, s, steps).value.events == s.events + Emissions(steps, c.ext)
    decreases |steps|
  {
    if steps != [] {
      var before, last := steps[..|steps| - 1], steps[|steps| - 1];
      assert last in steps;
      RunBuffers(c, s, before);
      BufferedByStep(c, Exec(c, s, before).value, last);
    }
  }

  lemma BufferedByStep(c: Component, s: State, step: Step)
    requires Enabled(s, step) && step != Drain
    ensures Apply(c, s, step).events
         == s.events + if step.Emit? then [Event(step.instance, step.name, AllToJson(step.params, c.ext))] else []
  {
  }

  /**
   While a request is in flight nothing leaves the buffer: a drain that comes in
   between finds the contract borrowed.
   */
  lemma {:induction false} FlightBuffers(c: Component, s: State, request: Step, acts: seq<Step>)
    requires Enabled(s, request) && Apply(c, s, request).flight.Some? && Apply(c, s, request).events == s.events
    requires Exec(c, s, [request] + acts).Some? && forall i | 0 <= i < |acts| :: !acts[i].Finish?
    ensures var t := Exec(c, s, [request] + acts).value;
            t.flight.Some? && t.events == s.events + Emissions(acts, c.ext)
    decreases |acts|
  {
    var steps := [request] + acts;
    if acts == [] {
      assert steps == [request] && steps[..0] == [];
      assert s.events + [] == s.events;
    } else {
      assert steps[..|acts|] == [request] + acts[..|acts| - 1];
      FlightBuffers(c, s, request, acts[..|acts| - 1]);
      FlightBuffersStep(c, Exec(c, s, steps[..|acts|]).value, acts[|acts| - 1]);
    }
  }

  lemma FlightBuffersStep(c: Component, s: State, step: Step)
    requires s.flight.Some? && Enabled(s, step) && !step.Finish?
    ensures Apply(c, s, step).flight.Some?
    ensures Apply(c, s, step).events
         == s.events + if step.Emit? then [Event(step.instance, step.name, AllToJson(step.params, c.ext))] else []
  {
  }

  // Handles

  /** A mint takes a new id, and a table entry nobody holds, as long as fewer than 2^32 ids have been issued. */
  lemma MintNeverOverwrites(c: Component, steps: seq<Step>)
    requires Exec(c, Initial(), steps).Some?
    ensures var s := Exec(c, Initial(), steps).value;
            && (s.nextId in s.minted <==> |s.minted| >= TWO_32)
            && (|s.minted| < TWO_32 ==> s.nextId !in s.handles && forall id | id in s.minted :: id < s.nextId)
  {
    EveryRun(c, steps);
    var s := Exec(c, Initial(), steps).value;
    NextIdFresh(s.minted, s.nextId);
    if |s.minted| < TWO_32 { NextIdAbove(s.handles, s.minted, s.dropped, s.nextId); }
  }

  lemma NextIdAbove(handles: map<u32, Handle>, minted: seq<u32>, dropped: set<u32>, nextId: u32)
    requires Numbered(minted, nextId) && Table(handles, minted, dropped) && |minted| < TWO_32
    ensures nextId !in handles && forall id | id in minted :: id < nextId
  {
    NextIdFresh(minted, nextId);
  }

  /** Until the counter wraps, the live ids are those issued and not dropped. */
  lemma LiveExactly(c: Component, steps: seq<Step>, id: u32)
    requires Exec(c, Initial(), steps).Some? && |Exec(c, Initial(), steps).value.minted| <= TWO_32
    ensures var s := Exec(c, Initial(), steps).value;
            id in s.handles <==> id in s.minted && id !in s.dropped
  {
    EveryRun(c, steps);
  }

  /** What is issued, dropped or made stays so. */
  lemma StepGrows(c: Component, s: State, step: Step)
    requires Enabled(s, step)
    ensures var t := Apply(c, s, step);
            s.minted <= t.minted && s.dropped <= t.dropped && s.stores <= t.stores && s.declared <= t.declared
  {
  }

  lemma {:induction false} RunGrows(c: Component, s: State, steps: seq<Step>)
    requires Exec(c, s, steps).Some?
    ensures var t := Exec(c, s, steps).value;
            s.minted <= t.minted && s.dropped <= t.dropped && s.stores <= t.stores && s.declared <= t.declared
    decreases |steps|
  {
    if steps != [] {
      RunGrows(c, s, steps[..|steps| - 1]);
      StepGrows(c, Exec(c, s, steps[..|steps| - 1]).value, steps[|steps| - 1]);
    }
  }

  /** A dropped id never becomes valid again, in any continuation of any run that issues at most 2^32 ids. */
  lemma DroppedForGood(c: Component, s: State, steps: seq<Step>, id: u32)
    requires Inv(c, s) && id in s.dropped
    requires Exec(c, s, steps).Some? && |Exec(c, s, steps).value.minted| <= TWO_32
    ensures id !in Exec(c, s, steps).value.handles
  {
    RunKeepsInv(c, s, steps);
    RunGrows(c, s, steps);
  }

  /** Until it is dropped a handle keeps its export, its store and its ledger context, and its gate only opens further. */
  lemma {:induction false} HandleKeepsStore(c: Component, s: State, steps: seq<Step>, id: u32)
    requires Inv(c, s) && id in s.handles
    requires Exec(c, s, steps).Some? && |Exec(c, s, steps).value.minted| <= TWO_32
    requires id !in Exec(c, s, steps).value.dropped
    ensures var t := Exec(c, s, steps).value; id in t.handles && SameHandle(s.handles[id], t.handles[id])
    decreases |steps|
  {
    if steps != [] {
      var before := steps[..|steps| - 1];
      var mid := Exec(c, s, before).value;
      StepGrows(c, mid, steps[|steps| - 1]);
      HandleKeepsStore(c, s, before, id);
      RunKeepsInv(c, s, before);
      StepKeepsHandle(c, mid, steps[|steps| - 1], id);
    }
  }

  predicate SameHandle(old_: Handle, new_: Handle) {
    && new_.origin == old_.origin
    && new_.store.number == old_.store.number
    && new_.store.cardano == old_.store.cardano
    && old_.store.implemented <= new_.store.implemented
  }

  lemma StepKeepsHandle(c: Component, s: State, step: Step, id: u32)
    requires Inv(c, s) && id in s.handles && Enabled(s, step)
    requires |Apply(c, s, step).minted| <= TWO_32 && id !in Apply(c, s, step).dropped
    ensures id in Apply(c, s, step).handles && SameHandle(s.handles[id], Apply(c, s, step).handles[id])
  {
    NextIdFresh(s.minted, s.nextId);
  }

  // The wrap

  /** A request that mints, and the guest's return from it. */
  function MintOnce(instance: string, func: string): seq<Step> {
    [Call(instance, func, []), Finish(true)]
  }

  function Mints(instance: string, func: string, n: nat): seq<Step> {
    if n == 0 then [] else Mints(instance, func, n - 1) + MintOnce(instance, func)
  }

  /** A constructor without parameters. */
  predicate PlainConstructor(c: Component, instance: string, func: string) {
    && instance in c.instances && IsConstructor(func)
    && FindFunc(c.instances[instance].funcs, func) == Some(Func(func, [], false, true))
  }

  lemma ExecAppend(c: Component, s: State, steps: seq<Step>, last: Step)
    requires Exec(c, s, steps).Some? && Enabled(Exec(c, s, steps).value, last)
    ensures Exec(c, s, steps + [last]) == Some(Apply(c, Exec(c, s, steps).value, last))
  {
    assert (steps + [last])[..|steps|] == steps;
  }

  /** Minting at the end of a run that has nothing in flight. */
  lemma MintAgain(c: Component, steps: seq<Step>, instance: string, func: string)
    requires PlainConstructor(c, instance, func)
    requires Exec(c, Initial(), steps).Some? && Exec(c, Initial(), steps).value.flight.None?
    ensures var s, r := Exec(c, Initial(), steps).value, Exec(c, Initial(), steps + MintOnce(instance, func));
            && r.Some? && r.value.flight.None? && r.value.dropped == s.dropped
            && r.value.minted == s.minted + [s.nextId]
            && r.value.handles.Keys == s.handles.Keys + {s.nextId}
  {
    ExecAppend(c, Initial(), steps, Call(instance, func, []));
    ExecAppend(c, Initial(), steps + [Call(instance, func, [])], Finish(true));
    assert steps + MintOnce(instance, func) == steps + [Call(instance, func, [])] + [Finish(true)];
  }

  lemma {:induction false} MintsRun(c: Component, instance: string, func: string, n: nat)
    requires PlainConstructor(c, instance, func)
    ensures var r := Exec(c, Initial(), Mints(instance, func, n));
            r.Some? && r.value.flight.None? && |r.value.minted| == n && r.value.dropped == {}
  {
    if n > 0 {
      MintsRun(c, instance, func, n - 1);
      MintAgain(c, Mints(instance, func, n - 1), instance, func);
    }
  }

  /** The bound is needed: mint 2^32 handles, drop the first, mint once more, and the dropped id is valid again. */
  lemma WrapRevivesDroppedId(c: Component, instance: string, func: string)
    requires PlainConstructor(c, instance, func)
    ensures var steps := Mints(instance, func, TWO_32) + [Drop(0), Finish(true)] + MintOnce(instance, func);
            && Exec(c, Initial(), steps).Some?
            && 0 in Exec(c, Initial(), steps).value.dropped && 0 in Exec(c, Initial(), steps).value.handles
  {
    var all := Mints(instance, func, TWO_32);
    MintsRun(c, instance, func, TWO_32);
    EveryRun(c, all);
    var s := Exec(c, Initial(), all).value;
    assert s.minted[0] == 0 && 0 in s.handles;
    ExecAppend(c, Initial(), all, Drop(0));
    ExecAppend(c, Initial(), all + [Drop(0)], Finish(true));
    assert all + [Drop(0)] + [Finish(true)] == all + [Drop(0), Finish(true)];
    MintAgain(c, all + [Drop(0), Finish(true)], instance, func);
  }

  /** A run and then another is the run of both. */
  lemma {:induction false} ExecConcat(c: Component, s: State, first: seq<Step>, second: seq<Step>)
    requires Exec(c, s, first).Some? && Exec(c, Exec(c, s, first).value, second).Some?
    ensures Exec(c, s, first + second) == Exec(c, Exec(c, s, first).value, second)
    decreases |second|
  {
    if second == [] {
      assert first + second == first;
    } else {
      var before, last := second[..|second| - 1], second[|second| - 1];
      ExecConcat(c, s, first, before);
      ExecAppend(c, s, first + before, last);
      assert first + before + [last] == first + second;
    }
  }

  /** One request from start to end: `request`, what the guest does, and its return. */
  function Whole(request: Step, acts: seq<Step>, ok: bool): seq<Step> {
    [request] + acts + [Finish(ok)]
  }

  lemma WholeRun(c: Component, s: State, request: Step, acts: seq<Step>, mid: State, ok: bool)
    requires Enabled(s, request) && Exec(c, Apply(c, s, request), acts) == Some(mid) && InFlight(mid)
    ensures Exec(c, s, Whole(request, acts, ok)) == Some(FinishFlight(mid, ok))
  {
    ExecAppend(c, s, [], request);
    assert [] + [request] == [request];
    ExecConcat(c, s, [request], acts);
    ExecAppend(c, s, [request] + acts, Finish(ok));
  }

  // The gate

  /** Whatever the page asks for and the guest does, a method runs only on a handle whose own store declared its hash. */
  lemma GateHolds(c: Component, steps: seq<Step>, i: nat)
    requires Exec(c, Initial(), steps).Some? && i < |Exec(c, Initial(), steps).value.invoked|
    ensures var s := Exec(c, Initial(), steps).value; var run := s.invoked[i];
            && Declaration(run.store, HostHash(run.func, c.sha)) in s.declared
            && Declares(c, steps, run.store, HostHash(run.func, c.sha))
  {
    EveryRun(c, steps);
    var s := Exec(c, Initial(), steps).value;
    DeclaredByGuest(c, steps, Declaration(s.invoked[i].store, HostHash(s.invoked[i].func, c.sha)));
  }

  /** The same at the moment of the call: the declaration came earlier in the run. */
  lemma OnlyDeclaredRuns(c: Component, steps: seq<Step>, instance: string, func: string, args: seq<Json>)
    requires Exec(c, Initial(), steps).Some?
    requires var r := AdmitCall(c, Exec(c, Initial(), steps).value, instance, func, args); r.Ok? && r.value.Calling?
    ensures var s := Exec(c, Initial(), steps).value; var id := AdmitCall(c, s, instance, func, args).value.id;
            id in s.handles && Declares(c, steps, s.handles[id].store.number, HostHash(func, c.sha))
  {
    EveryRun(c, steps);
    var s := Exec(c, Initial(), steps).value;
    var store := s.handles[AdmitCall(c, s, instance, func, args).value.id].store;
    assert Own(store, s.stores, s.declared);
    DeclaredByGuest(c, steps, Declaration(store.number, HostHash(func, c.sha)));
  }

  /** At some point of the run the guest, running in that store, declared that hash. */
  ghost predicate Declares(c: Component, steps: seq<Step>, store: nat, hash: MethodHash) {
    exists k :: 0 <= k < |steps| && DeclaresAt(c, steps, k, store, hash)
  }

  ghost predicate DeclaresAt(c: Component, steps: seq<Step>, k: nat, store: nat, hash: MethodHash)
    requires k < |steps|
  {
    && steps[k] == Declare(hash)
    && Exec(c, Initial(), steps[..k]).Some?
    && InFlight(Exec(c, Initial(), steps[..k]).value)
    && Current(Exec(c, Initial(), steps[..k]).value).number == store
  }

  lemma {:induction false} DeclaredByGuest(c: Component, steps: seq<Step>, d: Declaration)
    requires Exec(c, Initial(), steps).Some? && d in Exec(c, Initial(), steps).value.declared
    ensures Declares(c, steps, d.store, d.hash)
    decreases |steps|
  {
    if steps != [] {
      var last := |steps| - 1;
      var s := Exec(c, Initial(), steps[..last]).value;
      DeclaredByStep(c, s, steps[last], d);
      if d in s.declared {
        DeclaredByGuest(c, steps[..last], d);
        var k :| 0 <= k < last && DeclaresAt(c, steps[..last], k, d.store, d.hash);
        assert steps[..last][..k] == steps[..k];
        assert DeclaresAt(c, steps, k, d.store, d.hash);
      } else {
        assert DeclaresAt(c, steps, last, d.store, d.hash);
      }
    }
  }

  lemma DeclaredByStep(c: Component, s: State, step: Step, d: Declaration)
    requires Enabled(s, step) && d in Apply(c, s, step).declared
    ensures d in s.declared || (step == Declare(d.hash) && InFlight(s) && d.store == Current(s).number)
  {
  }

  /** A name is listed exactly when it is a valid method of the export that the store has declared. */
  lemma {:induction false} ListedExactly(funcs: seq<Func>, implemented: set<MethodHash>, sha: bytes -> Digest, name: string)
    requires Distinct(FuncNames(funcs))
    ensures name in Listed(funcs, implemented, sha)
       <==> && FindFunc(funcs, name).Some? && FindFunc(funcs, name).value.receiver
            && IsMethod(name) && HostHash(name, sha) in implemented
  {
    if funcs != [] {
      var names := FuncNames(funcs);
      assert FuncNames(funcs[1..]) == names[1..];
      ListedExactly(funcs[1..], implemented, sha, name);
      assert forall i | 0 < i < |funcs| :: funcs[i].name == names[i] != names[0] == funcs[0].name;
    }
  }

  /**
   The gate, exactly: given a live handle and arguments that convert, `call` lets
   a function through if and only if it is a valid method of the instance the
   page named and the handle's own store has declared its hash.
   */
  lemma AdmittedExactly(c: Component, s: State, id: u32, instance: string, func: string, args: seq<Json>)
    requires s.flight.None? && id in s.handles && instance in c.instances && !IsConstructor(func)
    requires HandleId(args) == Some(id) && ArgumentsConvert(c, c.instances[instance], func, args)
    ensures var found, r := FindFunc(c.instances[instance].funcs, func), AdmitCall(c, s, instance, func, args);
            && (r.Ok? <==> found.Some? && found.value.receiver
                           && HostHash(func, c.sha) in s.handles[id].store.implemented)
            && (r.Ok? ==> r.value.Calling? && r.value.id == id)
  {
  }

  /**
   The list and the gate agree: with nothing in flight, a name is listed for a
   handle exactly when it is called a method and `call`, given the handle, its
   own instance and arguments that convert, lets it through.
   */
  lemma ListedIsCallable(c: Component, s: State, id: u32, instance: string, func: string, args: seq<Json>)
    requires s.flight.None? && id in s.handles
    requires instance in c.instances && c.instances[instance] == s.handles[id].origin
    requires Distinct(FuncNames(s.handles[id].origin.funcs))
    requires HandleId(args) == Some(id) && ArgumentsConvert(c, s.handles[id].origin, func, args)
    ensures func in Listed(s.handles[id].origin.funcs, s.handles[id].store.implemented, c.sha)
       <==> IsMethod(func) && AdmitCall(c, s, instance, func, args).Ok?
  {
    ListedExactly(s.handles[id].origin.funcs, s.handles[id].store.implemented, c.sha, func);
    if IsMethod(func) {
      assert func[1] == 'm';
      AdmittedExactly(c, s, id, instance, func, args);
    }
  }

  predicate ArgumentsConvert(c: Component, origin: UtxoExport, func: string, args: seq<Json>)
    requires args != []
  {
    match FindFunc(origin.funcs, func)
    case None => true
    case Some(f) => ConvertArgs(ParamTypes(f.params), 1, args[1..], c.ext).Ok?
  }

  function HandleArgument(id: u32): Json {
    Object(map["$handle" := Integer(id)])
  }

  /**
   The list does not bound what can be called: a plain function that borrows the
   resource shares the identity of the method of that name, passes the gate and
   is not listed.
   */
  lemma UnlistedYetCallable(sha: bytes -> Digest, ext: External)
    ensures var new_ := Func("[static]utxo.new", [], false, true);
            var plain := Func("finish", [Field("self", Type.Borrow)], true, false);
            var c := Component(["game"], map["game" := UtxoExport([new_, plain], None)], sha, ext);
            var s := Exec(c, Initial(), [Call("game", new_.name, []), Declare(HostHash("finish", sha)), Finish(true)]);
            && s.Some? && 0 in s.value.handles
            && AdmitCall(c, s.value, "game", "finish", [HandleArgument(0)]) == Ok(Calling(0, []))
            && "finish" !in Listed([new_, plain], s.value.handles[0].store.implemented, sha)
  {
    var new_ := Func("[static]utxo.new", [], false, true);
    var plain := Func("finish", [Field("self", Type.Borrow)], true, false);
    var c := Component(["game"], map["game" := UtxoExport([new_, plain], None)], sha, ext);
    DeclaresOnMint(c, "game", new_.name, HostHash("finish", sha));
    assert plain.name[0] == 'f' && new_.name[0] == '[';
    assert FindFunc([new_, plain], "finish") == FindFunc([plain], "finish") == Some(plain);
    assert [plain][1..] == [] && [new_, plain][1..] == [plain];
    ListedExactly([new_, plain], {HostHash("finish", sha)}, sha, "finish");
  }

  /**
   Nor does it bound the instance: a method of another instance passes with this
   handle when the handle's store declared a method of that name, although its
   own export has none.
   */
  lemma ForeignMethodAdmitted(sha: bytes -> Digest, ext: External)
    ensures var new_ := Func("[static]utxo.new", [], false, true);
            var foreign := Func("[method]utxo.finish", [Field("self", Type.Borrow)], true, false);
            var c := Component(["game", "other"],
                               map["game" := UtxoExport([new_], None), "other" := UtxoExport([foreign], None)], sha, ext);
            var s := Exec(c, Initial(), [Call("game", new_.name, []), Declare(HostHash(foreign.name, sha)), Finish(true)]);
            && s.Some? && 0 in s.value.handles && s.value.handles[0].origin == c.instances["game"]
            && AdmitCall(c, s.value, "other", foreign.name, [HandleArgument(0)]) == Ok(Calling(0, []))
            && Listed([new_], s.value.handles[0].store.implemented, sha) == []
  {
    var new_ := Func("[static]utxo.new", [], false, true);
    var foreign := Func("[method]utxo.finish", [Field("self", Type.Borrow)], true, false);
    var c := Component(["game", "other"],
                       map["game" := UtxoExport([new_], None), "other" := UtxoExport([foreign], None)], sha, ext);
    DeclaresOnMint(c, "game", new_.name, HostHash(foreign.name, sha));
    var s := Exec(c, Initial(), [Call("game", new_.name, []), Declare(HostHash(foreign.name, sha)), Finish(true)]).value;
    Prefixes();
    ConstructorsNotListed(new_, s.handles[0].store.implemented, sha);
    AdmittedExactly(c, s, 0, "other", foreign.name, [HandleArgument(0)]);
  }

  lemma Prefixes()
    ensures !IsConstructor("[method]utxo.finish") && !IsMethod("[static]utxo.new")
  {
    assert "[method]utxo.finish"[1] == 'm' && "[static]utxo.new"[1] == 's';
  }

  lemma ConstructorsNotListed(f: Func, implemented: set<MethodHash>, sha: bytes -> Digest)
    requires !IsMethod(f.name)
    ensures Listed([f], implemented, sha) == []
  {
    assert [f][1..] == [];
  }

  /** A first mint during which the guest declares `h`. */
  lemma DeclaresOnMint(c: Component, instance: string, func: string, h: MethodHash)
    requires PlainConstructor(c, instance, func)
    ensures Exec(c, Initial(), [Call(instance, func, []), Declare(h), Finish(true)])
         == Some(Initial().(handles := map[0 := Handle(c.instances[instance], Store(0, Cardano(0, 0), {h}))],
                            nextId := 1, stores := 1, minted := [0], declared := {Declaration(0, h)}))
  {
    var call := Call(instance, func, []);
    ExecAppend(c, Initial(), [], call);
    assert [] + [call] == [call] && [call] + [Declare(h)] == [call, Declare(h)];
    ExecAppend(c, Initial(), [call], Declare(h));
    ExecAppend(c, Initial(), [call, Declare(h)], Finish(true));
    assert [call, Declare(h)] + [Finish(true)] == [call, Declare(h), Finish(true)];
    assert {} + {h} == {h} && {} + {Declaration(0, h)} == {Declaration(0, h)};
    assert [] + [0 as u32] == [0];
  }

  // Storage

  /**
   The object `storage_get` returns for a handle, given to `load_utxo` for the
   same export, hands the guest the very record that was read, with nested
   absent options collapsed; so the same record exactly when there are none.
   */
  lemma StorageReloads(c: Component, s: State, instance: string, fields: seq<Field>, read: seq<Member>)
    requires s.flight.None? && instance in c.instances && c.instances[instance].storage == Some(fields)
    requires JsonType(Type.Record(fields)) && WellTyped(Type.Record(fields), Val.Record(read))
    ensures var r := AdmitLoad(c, s, instance, Object(MembersToJson(read, c.ext)));
            && r == Ok(Minting(Handle(c.instances[instance], FreshStore(s)), [Collapse(Val.Record(read))]))
            && (r.value.given == [Val.Record(read)] <==> NoNestedNone(Val.Record(read)))
  {
    WellTypedBridged(Type.Record(fields), Val.Record(read));
    JsonRoundTrip(Type.Record(fields), Val.Record(read), c.ext);
    CollapseIsIdentity(Val.Record(read));
  }
}
