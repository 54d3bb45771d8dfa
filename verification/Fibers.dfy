/**
 The fiber and job protocol of the browser runtime as a step relation: fiber
 switching, the shadow-stack pointer, the promise chain that queues jobs, and
 the park cell. Each step is one synchronous piece of the glue or one reaction
 of the engine's event loop; steps interleave freely.
 */
module Fibers {
  import opened Wrappers

  /** An execution context: the root activation of a job, or the fiber whose stack spans up to `top`. */
  datatype Ctx = Root(job: nat) | Fiber(top: int)

  /** The record a switch leaves behind for its caller: whose promise it is, and the pointer to restore. */
  datatype Waiter = Waiter(ctx: Ctx, sp: int)

  datatype FiberRec = FiberRec(started: bool, slot: Option<Waiter>)

  /** What the engine knows of a live activation. */
  datatype Status =
    | Running
    | Waiting               // suspended on the promise its own switch returned
    | Waking(ok: bool)      // that promise has settled; the resumption is pending
    | Parked                // suspended on the promise `park` stored
    | Woken                 // suspended on a park promise that has resolved
    | Ended(ok: bool)       // returned or trapped; the reaction to that is pending

  /** The promise one `drive` call returned. */
  datatype Job = Queued | Started | Settled(ok: bool)

  datatype State = State(
    // the module state of the glue
    ready: bool,
    sp: int,
    fibers: map<int, FiberRec>,
    parked: Option<Ctx>,
    wakePending: bool,
    // the promises of the job chain: what each `drive` returned, and whether the link behind it has resolved
    jobs: seq<Job>,
    links: seq<bool>,
    // the engine's live activations
    ctxs: map<Ctx, Status>,
    // history: where each activation's stack began, how much of it is in use, who resumed each fiber last
    base: map<Ctx, int>,
    depth: map<Ctx, nat>,
    resumer: map<int, Ctx>,
    // history: the order jobs were started in, and how each activation ended
    startLog: seq<nat>,
    outcomes: map<nat, bool>,
    // history of the current job: polls, unparks, whether a wake was pending when it started,
    // and whether a wake has come since the latest poll began
    polls: nat,
    unparks: nat,
    stale: bool,
    woken: bool)
  {
    /** This state with another status for `c`. */
    function Set(c: Ctx, status: Status): State {
      this.(ctxs := ctxs[c := status])
    }
  }

  function Initial(sp: int): State {
    State(false, sp, map[], None, false, [], [], map[], map[], map[], map[], [], map[], 0, 0, false, false)
  }

  datatype Step =
    | Setup
    | Drive                       // a job is handed to `drive`
    | Start(job: nat)             // the reaction that runs `runJob(job)`
    | Frames(ctx: Ctx, d: nat)    // a context takes or releases stack: its own frames now use `d`
    | Init(ctx: Ctx, top: int)    // `fiber_init`
    | Switch(ctx: Ctx, top: int)  // `fiber_switch`
    | Return(ctx: Ctx)            // the activation's entry function returns
    | Trap(ctx: Ctx)
    | Resume(ctx: Ctx)            // the engine resumes a context whose switch promise has settled
    | SettleFiber(top: int)       // the reaction to the end of a fiber's activation
    | SettleJob(job: nat)         // the `drive` promise takes the outcome of its activation
    | Link(job: nat)              // the chain swallows the outcome
    | Park(ctx: Ctx)              // a poll returned Pending
    | Poll(ctx: Ctx)              // the engine resumes a woken `block_on`, which polls again
    | Unpark

  predicate Is(s: State, c: Ctx, status: Status) {
    c in s.ctxs && s.ctxs[c] == status
  }

  /**
   A fiber is switched to only to enter it, to resume it while it is suspended,
   or from inside it, to suspend it. A suspended fiber is the one parked in its
   own slot.
   */
  predicate Switchable(s: State, c: Ctx, top: int) {
    && top in s.fibers
    && (c == Fiber(top)
        || !s.fibers[top].started
        || (s.fibers[top].slot.Some? && s.fibers[top].slot.value.ctx == Fiber(top)))
  }

  predicate Enabled(s: State, step: Step) {
    match step
    case Setup => true
    case Drive => true
    case Start(k) => k < |s.jobs| && k <= |s.links| && s.jobs[k] == Queued && (k == 0 || s.links[k - 1])
    case Frames(c, _) => Is(s, c, Running) && c in s.depth
    case Init(c, top) => Is(s, c, Running) && !(top in s.fibers && s.fibers[top].started)
    case Switch(c, top) =>
      && Is(s, c, Running)
      && Switchable(s, c, top)
      && (s.fibers[top].started ==> s.fibers[top].slot.Some? && s.fibers[top].slot.value.ctx in s.ctxs)
    case Return(c) => Is(s, c, Running) && c in s.depth && s.depth[c] == 0
    case Trap(c) => Is(s, c, Running)
    case Resume(c) => c in s.ctxs && s.ctxs[c].Waking?
    case SettleFiber(top) =>
      && Fiber(top) in s.ctxs && s.ctxs[Fiber(top)].Ended?
      && top in s.fibers && s.fibers[top].slot.Some? && s.fibers[top].slot.value.ctx in s.ctxs
    case SettleJob(k) => k < |s.jobs| && Root(k) in s.ctxs && s.ctxs[Root(k)].Ended?
    case Link(k) => k < |s.jobs| && k < |s.links| && s.jobs[k].Settled? && !s.links[k]
    case Park(c) => c.Root? && Is(s, c, Running)
    case Poll(c) => Is(s, c, Woken)
    case Unpark => s.parked.Some? ==> s.parked.value in s.ctxs
  }

  function Apply(s: State, step: Step): State
    requires Enabled(s, step)
  {
    match step
    case Setup => s.(ready := true)
    case Drive => if s.ready then s.(jobs := s.jobs + [Queued], links := s.links + [false]) else s
    case Start(k) => DoStart(s, k)
    case Frames(c, d) => DoFrames(s, c, d)
    case Init(_, top) => DoInit(s, top)
    case Switch(c, top) => DoSwitch(s, c, top)
    case Return(c) => End(s, c, true)
    case Trap(c) => End(s, c, false)
    case Resume(c) => if s.ctxs[c].ok then s.Set(c, Running) else End(s, c, false)
    case SettleFiber(top) => DoSettle(s, top)
    case SettleJob(k) => s.(jobs := s.jobs[k := Settled(s.ctxs[Root(k)].ok)], ctxs := s.ctxs - {Root(k)})
    case Link(k) => s.(links := s.links[k := true])
    case Park(c) => DoPark(s, c)
    case Poll(c) => s.(ctxs := s.ctxs[c := Running], polls := s.polls + 1, woken := false)
    case Unpark => DoUnpark(s)
  }

  function DoStart(s: State, k: nat): (t: State)
    requires k < |s.jobs|
    ensures t.parked == s.parked && t.wakePending == s.wakePending
    ensures t.ready == s.ready && |t.jobs| == |s.jobs| && t.links == s.links
  {
    s.(
      ctxs := s.ctxs[Root(k) := Running],
      jobs := s.jobs[k := Started],
      base := s.base[Root(k) := s.sp], depth := s.depth[Root(k) := 0],
      startLog := s.startLog + [k],
      polls := 1, unparks := 0, stale := s.wakePending, woken := false)
  }

  /** A switch from outside the fiber is what resumes it. */
  function Resumed(resumer: map<int, Ctx>, c: Ctx, top: int): map<int, Ctx> {
    if c == Fiber(top) then resumer else resumer[top := c]
  }

  /** The frames `c` has pushed become `d`, and the pointer moves by the difference. */
  function DoFrames(s: State, c: Ctx, d: nat): State
    requires c in s.depth
  {
    s.(sp := s.sp + s.depth[c] - d, depth := s.depth[c := d])
  }

  /** A new record, in place of one that may have been there. */
  function DoInit(s: State, top: int): State {
    s.(fibers := s.fibers[top := FiberRec(false, None)])
  }

  /** The caller is left waiting in the slot; the other side begins, or its promise settles. */
  function DoSwitch(s: State, c: Ctx, top: int): (t: State)
    requires top in s.fibers && (s.fibers[top].started ==> s.fibers[top].slot.Some?)
    ensures t.jobs == s.jobs && t.links == s.links && t.startLog == s.startLog && t.ready == s.ready
    ensures t.parked == s.parked && t.wakePending == s.wakePending && t.woken == s.woken
  {
    var fibers := s.fibers[top := FiberRec(true, Some(Waiter(c, s.sp)))];
    var waiting := s.ctxs[c := Waiting];
    if !s.fibers[top].started then
      s.(fibers := fibers,
         ctxs := waiting[Fiber(top) := Running],
         sp := top - 16,
         base := s.base[Fiber(top) := top - 16], depth := s.depth[Fiber(top) := 0],
         resumer := Resumed(s.resumer, c, top))
    else
      var other := s.fibers[top].slot.value;
      s.(fibers := fibers,
         ctxs := waiting[other.ctx := Waking(true)],
         sp := other.sp,
         resumer := Resumed(s.resumer, c, top))
  }

  /** The activation is over: it returned, or a trap or a rejected wait unwound it. */
  function End(s: State, c: Ctx, ok: bool): (t: State)
    ensures t.jobs == s.jobs && t.links == s.links && t.startLog == s.startLog && t.ready == s.ready
    ensures t.base == s.base && t.depth == s.depth
    ensures t.parked == s.parked && t.wakePending == s.wakePending && t.woken == s.woken
  {
    s.(ctxs := s.ctxs[c := Ended(ok)], outcomes := if c.Root? then s.outcomes[c.job := ok] else s.outcomes)
  }

  /** The fiber is gone; the promise of its last resumer settles, by a throw unless the fiber returned. */
  function DoSettle(s: State, top: int): (t: State)
    requires Enabled(s, SettleFiber(top))
    ensures t.jobs == s.jobs && t.links == s.links && t.startLog == s.startLog && t.ready == s.ready
    ensures t.base == s.base && t.depth == s.depth
    ensures t.parked == s.parked && t.wakePending == s.wakePending && t.woken == s.woken
  {
    var back := s.fibers[top].slot.value;
    s.(fibers := s.fibers - {top},
       ctxs := (s.ctxs - {Fiber(top)})[back.ctx := Waking(s.ctxs[Fiber(top)].ok)],
       sp := back.sp)
  }

  /** Where a call of `park` leaves its caller: gone on at once, thrown at because somebody is parked, or parked. */
  function ParkStatus(s: State): Status {
    if s.wakePending then Woken else if s.parked.Some? then Ended(false) else Parked
  }

  function DoPark(s: State, c: Ctx): (t: State)
    ensures t.jobs == s.jobs && t.links == s.links && t.startLog == s.startLog && t.ready == s.ready
    ensures t.base == s.base && t.depth == s.depth && t.woken == s.woken
  {
    var status := ParkStatus(s);
    s.(ctxs := s.ctxs[c := status],
       wakePending := false,
       parked := if status == Parked then Some(c) else s.parked,
       outcomes := if status == Ended(false) && c.Root? then s.outcomes[c.job := false] else s.outcomes)
  }

  function Wake(ctxs: map<Ctx, Status>, parked: Option<Ctx>): map<Ctx, Status> {
    if parked.Some? then ctxs[parked.value := Woken] else ctxs
  }

  function DoUnpark(s: State): (t: State)
    ensures t.jobs == s.jobs && t.links == s.links && t.startLog == s.startLog && t.ready == s.ready
    ensures t.base == s.base && t.depth == s.depth
  {
    s.(ctxs := Wake(s.ctxs, s.parked),
       parked := None,
       wakePending := if s.parked.Some? then s.wakePending else true,
       unparks := s.unparks + 1,
       woken := true)
  }

  /** The state after a sequence of steps, if each is enabled in its turn. */
  function Exec(s: State, steps: seq<Step>): Option<State> {
    if steps == [] then Some(s)
    else match Exec(s, steps[..|steps| - 1])
      case None => None
      case Some(t) => if Enabled(t, steps[|steps| - 1]) then Some(Apply(t, steps[|steps| - 1])) else None
  }
}
