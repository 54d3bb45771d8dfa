/**
 The glue module itself: its mutable state, and its functions as methods that
 update it in place. Each method is one step of the protocol.
 */
module FiberEnv {
  import opened Wrappers
  import opened Fibers

  /** A registered fiber; the glue mutates it through the map and through the closures that captured it. */
  class FiberRecord {
    var started: bool
    var slot: Option<Waiter>

    constructor ()
      ensures !started && slot == None
    {
      started := false;
      slot := None;
    }
  }

  class Glue {
    var ready: bool
    var sp: int
    var fibers: map<int, FiberRecord>
    var parked: Option<Ctx>
    var wakePending: bool
    var jobs: seq<Job>
    var links: seq<bool>
    // the engine's activations and the protocol's history; `View` takes everything else from the fields above
    ghost var engine: State

    /** Different stacks have different records, and the record of a fiber that has been entered holds somebody. */
    ghost predicate Valid()
      reads this, fibers.Values
    {
      && (forall a, b | a in fibers && b in fibers && a != b :: fibers[a] != fibers[b])
      && forall t | t in fibers && fibers[t].started :: fibers[t].slot.Some?
    }

    ghost function Records(): map<int, FiberRec>
      reads this`fibers, fibers.Values
    {
      map t | t in fibers :: FiberRec(fibers[t].started, fibers[t].slot)
    }

    ghost function View(): State
      reads this, fibers.Values
    {
      engine.(ready := ready, sp := sp, fibers := Records(),
              parked := parked, wakePending := wakePending, jobs := jobs, links := links)
    }

    constructor (pointer: int)
      ensures Valid() && View() == Initial(pointer)
    {
      ready, sp, fibers, parked, wakePending, jobs, links := false, pointer, map[], None, false, [], [];
      engine := Initial(pointer);
    }

    /** Settles the promise of a parked context: the engine will resume it, by a throw unless `ok`. */
    ghost method SettlePromise(w: Waiter, ok: bool)
      modifies this`engine
      ensures engine == old(engine).(ctxs := old(engine).ctxs[w.ctx := Waking(ok)])
    {
      engine := engine.(ctxs := engine.ctxs[w.ctx := Waking(ok)]);
    }

    /** Writing to one record shows as an update of that record. */
    twostate lemma RecordChanged(top: int)
      requires old(Valid()) && top in fibers && fibers == old(fibers)
      requires forall t | t in fibers && t != top ::
                 old(fibers[t].started) == fibers[t].started && old(fibers[t].slot) == fibers[t].slot
      ensures Records() == old(Records())[top := FiberRec(fibers[top].started, fibers[top].slot)]
    {
    }

    /** Only with the exports at hand are jobs accepted. */
    method SetUp()
      requires Valid()
      modifies this`ready
      ensures ready && Valid() && View() == Apply(old(View()), Setup)
    {
      ready := true;
    }

    /** Whatever was registered under `top`, there is now a fresh record: not entered, with nobody in its slot. */
    method FiberInit(top: int)
      requires Valid()
      modifies this`fibers
      ensures top in fibers && fresh(fibers[top]) && !fibers[top].started && fibers[top].slot == None
      ensures fibers == old(fibers)[top := fibers[top]]
      ensures Valid() && View() == DoInit(old(View()), top)
    {
      var record := new FiberRecord();
      fibers := fibers[top := record];
      assert Records() == old(Records())[top := FiberRec(false, None)];
    }

    /**
     Parks the caller in the fiber's slot and wakes the other side; the caller's
     promise is the one in `me`. Without a record the lookup of `started` throws,
     before anything has changed.
     */
    method FiberSwitch(top: int, caller: Ctx) returns (throws: bool)
      requires Valid()
      modifies this`sp, this`engine, if top in fibers then {fibers[top]} else {}
      ensures Valid() && fibers == old(fibers)
      ensures throws <==> top !in fibers
      ensures View() == if throws then old(View()) else DoSwitch(old(View()), caller, top)
      ensures Enabled(old(View()), Switch(caller, top)) ==> View() == Apply(old(View()), Switch(caller, top))
    {
      if top !in fibers {
        return true;
      }
      if !fibers[top].started {
        FirstSwitch(top, caller);
      } else {
        SwapSides(top, caller);
      }
      return false;
    }

    /** The first switch into a fiber begins its activation on its own stack. */
    method FirstSwitch(top: int, caller: Ctx)
      requires Valid() && top in fibers && !fibers[top].started
      modifies this`sp, this`engine, fibers[top]
      ensures Valid() && View() == DoSwitch(old(View()), caller, top)
    {
      var f, me := fibers[top], Waiter(caller, sp);
      f.started := true;
      f.slot := Some(me);
      sp := top - 16;
      RecordChanged(top);
      engine := engine.(
        ctxs := engine.ctxs[caller := Waiting][Fiber(top) := Running], resumer := Resumed(engine.resumer, caller, top),
        base := engine.base[Fiber(top) := top - 16], depth := engine.depth[Fiber(top) := 0]);
    }

    method SwapSides(top: int, caller: Ctx)
      requires Valid() && top in fibers && fibers[top].started
      modifies this`sp, this`engine, fibers[top]
      ensures Valid() && View() == DoSwitch(old(View()), caller, top)
    {
      var f, me := fibers[top], Waiter(caller, sp);
      var other := f.slot.value;
      f.slot := Some(me);
      sp := other.sp;
      RecordChanged(top);
      CallerWaits(top, caller);
      SettlePromise(other, true);
    }

    /** The caller is suspended on the promise the switch returns. */
    ghost method CallerWaits(top: int, caller: Ctx)
      modifies this`engine
      ensures engine == old(engine).(
                ctxs := old(engine).ctxs[caller := Waiting], resumer := Resumed(old(engine).resumer, caller, top))
    {
      engine := engine.(ctxs := engine.ctxs[caller := Waiting], resumer := Resumed(engine.resumer, caller, top));
    }

    /** The reactions to the end of a fiber's activation: the last resumer is resolved, or rejected if it trapped. */
    method FiberEnded(top: int, ok: bool)
      requires Valid() && Enabled(View(), SettleFiber(top)) && View().ctxs[Fiber(top)] == Ended(ok)
      modifies this`fibers, this`sp, this`engine
      ensures Valid() && View() == Apply(old(View()), SettleFiber(top))
    {
      var back := fibers[top].slot.value;
      fibers := fibers - {top};
      sp := back.sp;
      engine := engine.(ctxs := engine.ctxs - {Fiber(top)});
      SettlePromise(back, ok);
      assert Records() == old(Records()) - {top};
    }

    /** `throws` is the 'already parked' error. */
    method ParkJob(caller: Ctx) returns (throws: bool)
      requires Valid() && Enabled(View(), Park(caller))
      modifies this`wakePending, this`parked, this`engine
      ensures Valid() && View() == Apply(old(View()), Park(caller))
      ensures throws <==> !old(wakePending) && old(parked).Some?
    {
      if wakePending {
        wakePending := false;
        engine := engine.Set(caller, Woken);
        return false;
      }
      if parked.Some? {
        engine := End(engine, caller, false);
        return true;
      }
      parked := Some(caller);
      engine := engine.Set(caller, Parked);
      return false;
    }

    method UnparkJob()
      requires Valid() && Enabled(View(), Unpark)
      modifies this`wakePending, this`parked, this`engine
      ensures Valid() && View() == Apply(old(View()), Unpark)
    {
      engine := engine.(unparks := engine.unparks + 1, woken := true);
      var resolve := parked;
      if resolve.Some? {
        parked := None;
        engine := engine.Set(resolve.value, Woken);
      } else {
        wakePending := true;
      }
    }

    /** Queues a job behind the chain; without `setup` the promise is rejected and nothing is queued. */
    method DriveJob() returns (accepted: bool)
      requires Valid()
      modifies this`jobs, this`links
      ensures Valid() && View() == Apply(old(View()), Drive)
      ensures accepted == ready
    {
      if !ready {
        return false;
      }
      jobs := jobs + [Queued];
      links := links + [false];
      return true;
    }

    /** The reaction that the chain runs for job `k`: a fresh root activation begins at the current pointer. */
    method RunJob(k: nat)
      requires Valid() && Enabled(View(), Start(k))
      modifies this`jobs, this`engine
      ensures Valid() && View() == Apply(old(View()), Start(k))
    {
      jobs := jobs[k := Started];
      engine := engine.(
        ctxs := engine.ctxs[Root(k) := Running],
        base := engine.base[Root(k) := sp], depth := engine.depth[Root(k) := 0],
        startLog := engine.startLog + [k], polls := 1, unparks := 0, stale := wakePending, woken := false);
    }

    /** The promise `drive` returned takes the outcome of the job's activation, which is then gone. */
    method JobSettled(k: nat, ok: bool)
      requires Valid() && Enabled(View(), SettleJob(k)) && View().ctxs[Root(k)] == Ended(ok)
      modifies this`jobs, this`engine
      ensures Valid() && View() == Apply(old(View()), SettleJob(k))
    {
      jobs := jobs[k := Settled(ok)];
      engine := engine.(ctxs := engine.ctxs - {Root(k)});
    }

    /** The link of the chain behind job `k` resolves, whether the job's promise resolved or rejected. */
    method LinkResolved(k: nat)
      requires Valid() && Enabled(View(), Link(k))
      modifies this`links
      ensures Valid() && View() == Apply(old(View()), Link(k))
    {
      links := links[k := true];
    }
  }
}
