/** What the page's requests are let through to, what they leave behind, and what they answer. */
module Answers {
  import opened Wrappers
  import opened Bits
  import opened Values
  import opened Json
  import opened Lowering
  import opened MethodIdentity
  import opened Contracts
  import opened ContractRuns
  import opened ContractTable

  // Handles in documents

  /** An id is read from the first argument when that is an object with a 64-bit number, of which the low bits count. */
  lemma HandleIdExactly(args: seq<Json>, id: u32)
    ensures HandleId(args) == Some(id)
       <==> && args != [] && args[0].Object? && "$handle" in args[0].entries
            && args[0].entries["$handle"].Integer?
            && var i := args[0].entries["$handle"].i; 0 <= i < TWO_64 && i % TWO_32 == id
  {
  }

  /** The document answered for a handle, put first among the arguments, names that handle. */
  lemma AnsweredHandleIsRead(id: u32, rest: seq<Json>)
    ensures HandleId([HandleArgument(id)] + rest) == Some(id)
  {
    HandleIdExactly([HandleArgument(id)] + rest, id);
  }

  // While a request is in flight

  /** The hashes the guest declares in these acts. */
  function DeclaredIn(acts: seq<Step>): set<MethodHash> {
    set a | a in acts && a.Declare? :: a.hash
  }

  /** From `s` to `t` only the store the guest runs in has changed, by what it declared. */
  ghost predicate OnlyDeclares(s: State, t: State, hashes: set<MethodHash>)
    requires InFlight(s)
  {
    var now := WithCurrent(s, Current(s).(implemented := Current(s).implemented + hashes));
    t.handles == now.handles && t.flight == now.flight && t.nextId == s.nextId && t.cardano == s.cardano
  }

  lemma {:induction false} FlightOnlyDeclares(c: Component, s: State, acts: seq<Step>)
    requires InFlight(s) && Meanwhile(acts) && Exec(c, s, acts).Some?
    ensures InFlight(Exec(c, s, acts).value) && OnlyDeclares(s, Exec(c, s, acts).value, DeclaredIn(acts))
    decreases |acts|
  {
    if acts == [] {
      NothingDeclared(s);
    } else {
      var before, last := acts[..|acts| - 1], acts[|acts| - 1];
      FlightOnlyDeclares(c, s, before);
      DeclaredWithLast(before, last);
      assert acts == before + [last];
      ActOnlyDeclares(c, s, Exec(c, s, before).value, DeclaredIn(before), last);
    }
  }

  lemma NothingDeclared(s: State)
    requires InFlight(s)
    ensures OnlyDeclares(s, s, DeclaredIn([]))
  {
    assert Current(s).implemented + DeclaredIn([]) == Current(s).implemented;
  }

  lemma DeclaredWithLast(before: seq<Step>, last: Step)
    ensures DeclaredIn(before + [last]) == DeclaredIn(before) + if last.Declare? then {last.hash} else {}
  {
    assert forall a :: a in before + [last] <==> a in before || a == last;
  }

  lemma ActOnlyDeclares(c: Component, s: State, mid: State, hashes: set<MethodHash>, act: Step)
    requires InFlight(s) && InFlight(mid) && OnlyDeclares(s, mid, hashes) && Enabled(mid, act) && !act.Finish?
    ensures var t := Apply(c, mid, act);
            InFlight(t) && OnlyDeclares(s, t, hashes + if act.Declare? then {act.hash} else {})
  {
    if act.Declare? {
      assert Current(mid).implemented + {act.hash} == Current(s).implemented + (hashes + {act.hash});
    } else {
      assert hashes + {} == hashes;
    }
  }

  // What a mint leaves behind

  /** A request that was let through to mint. */
  predicate AdmittedMint(c: Component, s: State, request: Step, given: seq<Val>, instance: string) {
    && instance in c.instances
    && (request.Call? || request.Load?)
    && (if request.Call? then AdmitCall(c, s, request.instance, request.func, request.args)
        else AdmitLoad(c, s, request.instance, request.doc))
       == Ok(Minting(Handle(c.instances[instance], Store(s.stores, s.cardano, {})), given))
  }

  /**
   A successful mint adds one handle under the next id and changes no other: it
   belongs to the instance the page named, and to a store of its own that has the
   ledger context of the request and exactly the methods the guest declared
   meanwhile.
   */
  lemma MintAddsHandle(c: Component, s: State, request: Step, given: seq<Val>, instance: string, acts: seq<Step>)
    requires AdmittedMint(c, s, request, given, instance) && Meanwhile(acts)
    requires Exec(c, s, Whole(request, acts, true)).Some?
    ensures var t := Exec(c, s, Whole(request, acts, true)).value;
            && t.handles
            == s.handles[s.nextId := Handle(c.instances[instance], Store(s.stores, s.cardano, DeclaredIn(acts)))]
            && t.nextId == (s.nextId + 1) % TWO_32 && t.flight.None? && t.cardano == s.cardano
  {
    var h := Handle(c.instances[instance], Store(s.stores, s.cardano, {}));
    var mid := ExecWhole(c, s, request, acts, true);
    var start := MintStarts(c, s, request, h, given);
    FlightOnlyDeclares(c, start, acts);
    MintingDeclares(start, mid, h, given, DeclaredIn(acts));
  }

  lemma MintStarts(c: Component, s: State, request: Step, h: Handle, given: seq<Val>) returns (start: State)
    requires request.Call? ==> AdmitCall(c, s, request.instance, request.func, request.args) == Ok(Minting(h, given))
    requires !request.Call? ==> request.Load? && AdmitLoad(c, s, request.instance, request.doc) == Ok(Minting(h, given))
    ensures start == Apply(c, s, request) == s.(flight := Some(Minting(h, given)), stores := s.stores + 1)
  {
    start := Apply(c, s, request);
  }

  lemma MintingDeclares(s: State, mid: State, h: Handle, given: seq<Val>, hashes: set<MethodHash>)
    requires s.flight == Some(Minting(h, given)) && h.store.implemented == {} && OnlyDeclares(s, mid, hashes)
    ensures mid.flight == Some(Minting(h.(store := h.store.(implemented := hashes)), given)) && mid.handles == s.handles
    ensures mid.nextId == s.nextId && mid.cardano == s.cardano
  {
    assert {} + hashes == hashes;
  }

  /** A whole request is its admission, the acts, and the guest's return. */
  lemma ExecWhole(c: Component, s: State, request: Step, acts: seq<Step>, ok: bool) returns (mid: State)
    requires Exec(c, s, Whole(request, acts, ok)).Some?
    ensures Enabled(s, request) && Exec(c, Apply(c, s, request), acts) == Some(mid)
    ensures Enabled(mid, Finish(ok)) && Exec(c, s, Whole(request, acts, ok)) == Some(Apply(c, mid, Finish(ok)))
  {
    var steps, front := Whole(request, acts, ok), [request] + acts;
    assert steps[..|steps| - 1] == front;
    mid := Exec(c, s, front).value;
    ExecCons(c, s, request, acts);
  }

  /** A run is its first step and then the others. */
  lemma {:induction false} ExecCons(c: Component, s: State, first: Step, rest: seq<Step>)
    requires Exec(c, s, [first] + rest).Some?
    ensures Enabled(s, first) && Exec(c, Apply(c, s, first), rest) == Exec(c, s, [first] + rest)
    decreases |rest|
  {
    var all := [first] + rest;
    if rest == [] {
      assert all[..0] == [] && all == [first];
    } else {
      assert all[..|rest|] == [first] + rest[..|rest| - 1];
      ExecCons(c, s, first, rest[..|rest| - 1]);
    }
  }

  /** A mint that fails leaves the table as it was. */
  lemma FailedMintAddsNothing(c: Component, s: State, request: Step, given: seq<Val>, instance: string, acts: seq<Step>)
    requires AdmittedMint(c, s, request, given, instance) && Meanwhile(acts)
    requires Exec(c, s, Whole(request, acts, false)).Some?
    ensures var t := Exec(c, s, Whole(request, acts, false)).value;
            t.handles == s.handles && t.nextId == s.nextId && t.flight.None? && t.cardano == s.cardano
  {
    var mid := ExecWhole(c, s, request, acts, false);
    FlightOnlyDeclares(c, Apply(c, s, request), acts);
  }

  /** A method, or a read of the storage, changes no handle but its own, and that only by what the guest declares. */
  lemma CallOnlyDeclares(c: Component, s: State, request: Step, id: u32, acts: seq<Step>, ok: bool)
    requires (request.Call? && CallsOn(AdmitCall(c, s, request.instance, request.func, request.args), id))
             || (request == Get(id) && AdmitGet(s, id).Ok?)
    requires Meanwhile(acts) && Exec(c, s, Whole(request, acts, ok)).Some?
    ensures var t := Exec(c, s, Whole(request, acts, ok)).value;
            && id in s.handles && t.nextId == s.nextId && t.flight.None? && t.cardano == s.cardano
            && t.handles == s.handles[id := WithDeclared(s.handles[id], DeclaredIn(acts))]
  {
    var mid := ExecWhole(c, s, request, acts, ok);
    FlightOnlyDeclares(c, Apply(c, s, request), acts);
  }

  predicate CallsOn(r: Result<Flight, Refusal>, id: u32) {
    r.Ok? && r.value.Calling? && r.value.id == id
  }

  function WithDeclared(h: Handle, hashes: set<MethodHash>): Handle {
    h.(store := h.store.(implemented := h.store.implemented + hashes))
  }

  /** A drop takes out its handle and no other, whether or not the destructor fails. */
  lemma DropRemovesHandle(c: Component, s: State, id: u32, acts: seq<Step>, ok: bool)
    requires AdmitDrop(s, id).Ok? && Meanwhile(acts) && Exec(c, s, Whole(Drop(id), acts, ok)).Some?
    ensures var t := Exec(c, s, Whole(Drop(id), acts, ok)).value;
            t.handles == s.handles - {id} && t.nextId == s.nextId && t.flight.None? && t.cardano == s.cardano
  {
    var mid := ExecWhole(c, s, Drop(id), acts, ok);
    FlightOnlyDeclares(c, Apply(c, s, Drop(id)), acts);
  }

  /**
   The document a mint answers is all the page needs to use what was minted: put
   in front of arguments a method takes, it makes `call` run that method on the
   new handle if and only if the guest declared the method during the mint.
   */
  lemma MintThenCall(c: Component, s: State, request: Step, given: seq<Val>, instance: string, guest: GuestRun,
                     func: string, rest: seq<Json>)
    requires AdmittedMint(c, s, request, given, instance) && Meanwhile(guest.acts) && guest.results.Some?
    requires Exec(c, s, Whole(request, guest.acts, true)).Some? && !IsConstructor(func)
    requires var found := FindFunc(c.instances[instance].funcs, func);
             && found.Some? && found.value.receiver
             && LowerableArguments(ParamTypes(found.value.params), 1, rest, c.ext)
    ensures var t := Exec(c, s, Whole(request, guest.acts, true)).value;
            var minting := Minting(Handle(c.instances[instance], FreshStore(s)), given);
            var answer := Answer(Ok(minting), s.nextId, guest.results, c.ext);
            && answer.Ok? && answer.value.Document? && answer.value.json.Array?
            && var r := AdmitCall(c, t, instance, func, answer.value.json.items + rest);
            && (r.Ok? <==> HostHash(func, c.sha) in DeclaredIn(guest.acts))
            && (r.Ok? ==> CallsOn(r, s.nextId))
  {
    var t := Exec(c, s, Whole(request, guest.acts, true)).value;
    var args := [HandleArgument(s.nextId)] + rest;
    MintAddsHandle(c, s, request, given, instance, guest.acts);
    AnsweredHandleIsRead(s.nextId, rest);
    assert args[1..] == rest;
    ArgumentsExactly(ParamTypes(FindFunc(c.instances[instance].funcs, func).value.params), 1, rest, c.ext);
    AdmittedExactly(c, t, s.nextId, instance, func, args);
  }

  // What is let through

  /** A constructor call is let through exactly for a known constructor that mints, with arguments the page may send it. */
  lemma ConstructorAdmittedExactly(c: Component, s: State, instance: string, func: string, args: seq<Json>)
    requires s.flight.None? && instance in c.instances && IsConstructor(func)
    ensures var found, r := FindFunc(c.instances[instance].funcs, func), AdmitCall(c, s, instance, func, args);
            && (r.Ok? <==> && found.Some? && found.value.mints
                           && LowerableArguments(ParamTypes(found.value.params), 0, args, c.ext))
            && (r.Ok? ==> && r.value.Minting?
                          && r.value.handle == Handle(c.instances[instance], Store(s.stores, s.cardano, {}))
                          && DenoteArguments(ParamTypes(found.value.params), 0, args, r.value.given, c.ext))
  {
    var found := FindFunc(c.instances[instance].funcs, func);
    if found.Some? { ArgumentsExactly(ParamTypes(found.value.params), 0, args, c.ext); }
  }

  /** Any other call exactly for a known method, a live handle whose store has declared it, and arguments it takes. */
  lemma MethodAdmittedExactly(c: Component, s: State, instance: string, func: string, args: seq<Json>)
    requires s.flight.None? && instance in c.instances && !IsConstructor(func)
    ensures var found, r := FindFunc(c.instances[instance].funcs, func), AdmitCall(c, s, instance, func, args);
            var id := HandleId(args);
            && (r.Ok? <==> && found.Some? && found.value.receiver
                           && id.Some? && id.value in s.handles
                           && HostHash(func, c.sha) in s.handles[id.value].store.implemented
                           && LowerableArguments(ParamTypes(found.value.params), 1, args[1..], c.ext))
            && (r.Ok? ==> && CallsOn(r, id.value)
                          && DenoteArguments(ParamTypes(found.value.params), 1, args[1..], r.value.given, c.ext))
  {
    var found := FindFunc(c.instances[instance].funcs, func);
    if found.Some? && args != [] { ArgumentsExactly(ParamTypes(found.value.params), 1, args[1..], c.ext); }
  }

  /** `load_utxo` exactly for an instance with storage and a document the page may send for its record. */
  lemma LoadAdmittedExactly(c: Component, s: State, instance: string, doc: Json)
    requires s.flight.None? && instance in c.instances
    ensures var storage, r := c.instances[instance].storage, AdmitLoad(c, s, instance, doc);
            && (r.Ok? <==> storage.Some? && Lowerable(Type.Record(storage.value), doc, c.ext))
            && (r.Ok? ==> && r.value.Minting?
                          && r.value.handle == Handle(c.instances[instance], Store(s.stores, s.cardano, {}))
                          && |r.value.given| == 1 && Denotes(Type.Record(storage.value), doc, r.value.given[0], c.ext))
  {
    var storage := c.instances[instance].storage;
    if storage.Some? {
      var ty := Type.Record(storage.value);
      LoweredWhen(ty, doc, c.ext);
      var v := JsonToVal(ty, doc, c.ext);
      if v.Ok? { LowersExactly(ty, doc, v.value, c.ext); }
    }
  }

  /** Reads and drops: exactly for a live handle, and for a read one whose instance has storage. */
  lemma ReadsAndDropsAdmitted(s: State, id: u32)
    requires s.flight.None?
    ensures AdmitGet(s, id) == Ok(Reading(id)) <==> id in s.handles && s.handles[id].origin.storage.Some?
    ensures AdmitGet(s, id).Ok? ==> AdmitGet(s, id) == Ok(Reading(id))
    ensures AdmitDrop(s, id).Ok? <==> id in s.handles
    ensures AdmitDrop(s, id).Ok? ==> AdmitDrop(s, id) == Ok(Dropping(s.handles[id].store))
  {
  }

  // What is refused

  /** While a request is in flight every other one is refused as busy. */
  lemma BusyRefusesAll(c: Component, s: State, instance: string, func: string, args: seq<Json>, doc: Json, id: u32)
    ensures s.flight.Some? <==> AdmitCall(c, s, instance, func, args) == Err(Busy)
    ensures s.flight.Some? <==> AdmitLoad(c, s, instance, doc) == Err(Busy)
    ensures s.flight.Some? <==> AdmitGet(s, id) == Err(Busy)
    ensures s.flight.Some? <==> AdmitDrop(s, id) == Err(Busy)
  {
  }

  /** A refused call is refused for the first of its reasons, in the order the page can put them right. */
  lemma CallRefusedFor(c: Component, s: State, instance: string, func: string, args: seq<Json>)
    requires s.flight.None? && AdmitCall(c, s, instance, func, args).Err?
    ensures var why := AdmitCall(c, s, instance, func, args).error;
            if instance !in c.instances then why == UnknownInstance
            else
              var found := FindFunc(c.instances[instance].funcs, func);
              if found.None? then why == NoSuchFunction
              else if IsConstructor(func) then
                if found.value.mints then RefusedArguments(c, found.value, 0, args, why) else why == NotAConstructor
              else if !found.value.receiver then why == NotAMethod
              else if HandleId(args).None? then why == NoHandleArgument
              else if !LowerableArguments(ParamTypes(found.value.params), 1, args[1..], c.ext) then
                RefusedArguments(c, found.value, 1, args[1..], why)
              else why == if HandleId(args).value in s.handles then NotDeclared else UnknownHandle
  {
    if instance in c.instances {
      var found := FindFunc(c.instances[instance].funcs, func);
      if found.Some? && args != [] { ArgumentsExactly(ParamTypes(found.value.params), 1, args[1..], c.ext); }
    }
  }

  /** Arguments are refused for their number, or for the first of them that is. */
  predicate RefusedArguments(c: Component, f: Func, skip: nat, args: seq<Json>, why: Refusal) {
    var rest := Remaining(ParamTypes(f.params), skip);
    if |args| != |rest| then why == BadArguments(WrongArity(|rest|, |args|))
    else
      var r := ItemsToVal(rest, args, c.ext);
      r.Err? && why == BadArguments(r.error)
  }

  // What is answered

  /** There is an answer exactly for a request that was let through and whose guest returned; a read, with one record. */
  lemma AnsweredWhen(admitted: Result<Flight, Refusal>, nextId: u32, results: Option<seq<Val>>, ext: External)
    ensures Answer(admitted, nextId, results, ext).Ok?
       <==> && admitted.Ok? && results.Some?
            && (admitted.value.Reading? ==> |results.value| == 1 && results.value[0].Record?)
    ensures admitted.Err? ==> Answer(admitted, nextId, results, ext) == Err(Refused(admitted.error))
  {
  }

  /** The document a call answers shows each of the results in order, and lowered again gives them back, collapsed. */
  lemma ResultsAnswered(id: u32, given: seq<Val>, nextId: u32, types: seq<Type>, results: seq<Val>, ext: External)
    requires |types| == |results|
    requires forall i | 0 <= i < |types| :: JsonType(types[i]) && WellTyped(types[i], results[i])
    ensures var answer := Answer(Ok(Calling(id, given)), nextId, Some(results), ext);
            && answer.Ok? && answer.value.Document? && answer.value.json.Array?
            && |answer.value.json.items| == |results|
            && (forall i | 0 <= i < |results| :: Shows(results[i], answer.value.json.items[i]))
            && ItemsToVal(types, answer.value.json.items, ext) == Ok(CollapseAll(results))
  {
    LiftedAt(results, ext);
    forall i | 0 <= i < |results| ensures Shows(results[i], ValToJson(results[i], ext)) {
      WellTypedBridged(types[i], results[i]);
      LiftedShows(types[i], results[i], ext);
    }
    ArgumentsArrive(types, 0, results, ext);
    assert types[0..] == types;
  }

  /** The document a read answers shows the record. */
  lemma StorageAnswered(id: u32, nextId: u32, fields: seq<Field>, read: seq<Member>, ext: External)
    requires JsonType(Type.Record(fields)) && WellTyped(Type.Record(fields), Val.Record(read))
    ensures var answer := Answer(Ok(Reading(id)), nextId, Some([Val.Record(read)]), ext);
            answer.Ok? && answer.value.Document? && Shows(Val.Record(read), answer.value.json)
  {
    WellTypedBridged(Type.Record(fields), Val.Record(read));
    LiftedShows(Type.Record(fields), Val.Record(read), ext);
  }

  // The ledger context

  /** What the page set last stays until it sets another, so it is what later mints take; in flight it cannot be set. */
  lemma {:induction false} ContextSet(c: Component, s: State, now: Cardano, steps: seq<Step>)
    requires Exec(c, Apply(c, s, SetCardano(now)), steps).Some? && forall i | 0 <= i < |steps| :: !steps[i].SetCardano?
    ensures Exec(c, Apply(c, s, SetCardano(now)), steps).value.cardano == if s.flight.None? then now else s.cardano
    decreases |steps|
  {
    if steps != [] { ContextSet(c, s, now, steps[..|steps| - 1]); }
  }
}
