/** The Rust side of a job: the future staged by `run`, polled to its end inside the activation the glue starts. */
module FiberJobs {
  import opened Wrappers
  import opened Fibers
  import opened FiberTheorems
  import opened FiberRuns
  import opened FiberTraps

  /** A future, as what it answers to one poll after the other: Pending, or Ready with its output. */
  datatype Future<T> = Future(answers: seq<Option<T>>) {

    function Answer(i: nat): Option<T> {
      if i < |answers| then answers[i] else None
    }

    /** The poll with index `n` is the first one answered Ready. */
    ghost predicate ReadyAt(n: nat) {
      Answer(n).Some? && forall m | 0 <= m < n :: Answer(m).None?
    }
  }

  datatype RunError = ActivationFailed

  // What the activation of a job does in a run of the protocol

  /** How often the job has polled again. */
  function PollsOf(steps: seq<Step>, k: nat): nat {
    if steps == [] then 0 else PollsOf(steps[..|steps| - 1], k) + Count(steps[|steps| - 1] == Poll(Root(k)))
  }

  function ParksOf(steps: seq<Step>, k: nat): nat {
    if steps == [] then 0 else ParksOf(steps[..|steps| - 1], k) + Count(steps[|steps| - 1] == Park(Root(k)))
  }

  /** Job `k` is `block_on` over `fut`: it parks when a poll answers Pending and returns when one answers Ready. */
  predicate Follows<T>(steps: seq<Step>, k: nat, fut: Future<T>) {
    steps == [] ||
    (var before, last := steps[..|steps| - 1], steps[|steps| - 1];
     && Follows(before, k, fut)
     && (last == Park(Root(k)) ==> fut.Answer(PollsOf(before, k)).None?)
     && (last == Return(Root(k)) ==> fut.Answer(PollsOf(before, k)).Some?))
  }

  /** The job's `block_on` is inside `park`. */
  predicate Asleep(s: State, k: nat) {
    Root(k) in s.ctxs && (s.ctxs[Root(k)].Parked? || s.ctxs[Root(k)].Woken?)
  }

  /** A step of a context itself, other than a switch. */
  predicate OwnStep(step: Step) {
    step.Return? || step.Trap? || step.Resume? || step.Park? || step.Poll?
  }

  predicate Untouched(s: State, t: State, c: Ctx) {
    (c in t.ctxs <==> c in s.ctxs) && (c in s.ctxs ==> t.ctxs[c] == s.ctxs[c])
  }

  lemma OwnStepAlone(s: State, step: Step, c: Ctx)
    requires Enabled(s, step) && OwnStep(step) && c != step.ctx
    ensures Untouched(s, Apply(s, step), c)
  {
    if step.Park? {
      ParkAlone(s, step.ctx, c);
    } else if step.Return? || step.Trap? || (step.Resume? && !s.ctxs[step.ctx].ok) {
      EndAlone(s, step.ctx, step.Return?, c);
    }
  }

  lemma EndAlone(s: State, d: Ctx, ok: bool, c: Ctx)
    requires c != d
    ensures Untouched(s, End(s, d, ok), c)
  {
  }

  lemma ParkAlone(s: State, d: Ctx, c: Ctx)
    requires c != d
    ensures Untouched(s, DoPark(s, d), c)
  {
  }

  /** Where a step of its own leaves a context. */
  function Leaves(s: State, step: Step): Status
    requires OwnStep(step) && Enabled(s, step)
  {
    match step
    case Return(_) => Ended(true)
    case Trap(_) => Ended(false)
    case Resume(c) => if s.ctxs[c].ok then Running else Ended(false)
    case Park(_) => ParkStatus(s)
    case Poll(_) => Running
  }

  lemma OwnStepLeaves(s: State, step: Step)
    requires OwnStep(step) && Enabled(s, step)
    ensures Is(Apply(s, step), step.ctx, Leaves(s, step))
  {
    if step.Park? {
      ParkLeaves(s, step.ctx);
    } else if step.Return? || step.Trap? || (step.Resume? && !s.ctxs[step.ctx].ok) {
      EndLeaves(s, step.ctx, step.Return?);
    }
  }

  lemma EndLeaves(s: State, c: Ctx, ok: bool)
    ensures Is(End(s, c, ok), c, Ended(ok))
  {
  }

  lemma ParkLeaves(s: State, c: Ctx)
    ensures Is(DoPark(s, c), c, ParkStatus(s))
  {
  }

  /** Steps that leave the contexts alone. */
  predicate Quiet(step: Step) {
    step.Setup? || step.Drive? || step.Frames? || step.Init? || step.Link?
  }

  lemma QuietStep(s: State, step: Step, c: Ctx)
    requires Enabled(s, step) && Quiet(step)
    ensures Untouched(s, Apply(s, step), c)
  {
  }

  /** How a root's status may change in a step that is not its own. */
  predicate Touched(s: State, t: State, c: Ctx) {
    || Untouched(s, t, c)
    || (c !in s.ctxs && Is(t, c, Running))
    || (Is(s, c, Waiting) && c in t.ctxs && t.ctxs[c].Waking?)
    || (Is(s, c, Running) && Is(t, c, Waiting))
    || (Is(s, c, Parked) && Is(t, c, Woken))
    || (c in s.ctxs && s.ctxs[c].Ended? && c !in t.ctxs)
  }

  lemma RootTouched(s: State, stack: Stack, step: Step, c: Ctx)
    requires Inv(s, stack) && Enabled(s, step) && c.Root? && !(OwnStep(step) && step.ctx == c)
    ensures Touched(s, Apply(s, step), c)
  {
    if OwnStep(step) {
      OwnStepAlone(s, step, c);
    } else if Quiet(step) {
      QuietStep(s, step, c);
    } else if step.Start? {
      StartsAlone(s, stack, step.job);
      assert DoStart(s, step.job).ctxs == s.ctxs[Root(step.job) := Running];
    } else if step.Switch? {
      SwitchTouches(s, stack, step.ctx, step.top, c);
    } else if step.SettleFiber? {
      SettleTouches(s, stack, step.top, c);
    } else if step.Unpark? {
      UnparkTouches(s, stack, c);
    }
  }

  lemma SwitchTouches(s: State, stack: Stack, d: Ctx, top: int, c: Ctx)
    requires Inv(s, stack) && Enabled(s, Switch(d, top)) && c.Root?
    ensures Touched(s, DoSwitch(s, d, top), c)
  {
    SwitchWakesWaiting(s, stack, d, top);
    WakingTouches(s, d, top, c);
  }

  lemma WakingTouches(s: State, d: Ctx, top: int, c: Ctx)
    requires Enabled(s, Switch(d, top)) && c.Root?
    requires s.fibers[top].started ==>
               && s.fibers[top].slot.Some?
               && s.fibers[top].slot.value.ctx != d && Is(s, s.fibers[top].slot.value.ctx, Waiting)
    ensures Touched(s, DoSwitch(s, d, top), c)
  {
  }

  lemma SettleTouches(s: State, stack: Stack, top: int, c: Ctx)
    requires Inv(s, stack) && Enabled(s, SettleFiber(top)) && c.Root?
    ensures Touched(s, DoSettle(s, top), c)
  {
    SettleWakesWaiting(s, stack, top);
  }

  lemma UnparkTouches(s: State, stack: Stack, c: Ctx)
    requires Inv(s, stack) && Enabled(s, Unpark)
    ensures Touched(s, DoUnpark(s), c)
  {
  }

  lemma SettleWakesWaiting(s: State, stack: Stack, top: int)
    requires Inv(s, stack) && Enabled(s, SettleFiber(top))
    ensures Is(s, s.fibers[top].slot.value.ctx, Waiting)
  {
    assert InControl(stack, Fiber(top));
    assert ReturnsTo(s, top, stack[|stack| - 2]);
  }

  /** The other side of a switch was waiting. */
  lemma SwitchWakesWaiting(s: State, stack: Stack, c: Ctx, top: int)
    requires Inv(s, stack) && Enabled(s, Switch(c, top))
    ensures s.fibers[top].started ==>
              var other := s.fibers[top].slot.value.ctx;
              other != c && Is(s, other, Waiting)
  {
    assert InControl(stack, c);
    if c == Fiber(top) {
      assert ReturnsTo(s, top, stack[|stack| - 2]);
    }
  }

  lemma TouchedStaysAsleep(s: State, t: State, k: nat)
    requires Touched(s, t, Root(k))
    ensures Asleep(t, k) == Asleep(s, k)
  {
  }

  lemma AsleepStep(s: State, stack: Stack, step: Step, k: nat)
    requires Inv(s, stack) && Enabled(s, step)
    ensures Count(Asleep(Apply(s, step), k))
         == Count(Asleep(s, k)) + Count(step == Park(Root(k))) - Count(step == Poll(Root(k)))
  {
    if !(OwnStep(step) && step.ctx == Root(k)) {
      RootTouched(s, stack, step, Root(k));
      TouchedStaysAsleep(s, Apply(s, step), k);
    } else {
      OwnStepLeaves(s, step);
      OwnAsleepStep(s, stack, step, k);
    }
  }

  lemma OwnAsleepStep(s: State, stack: Stack, step: Step, k: nat)
    requires Inv(s, stack) && Enabled(s, step) && OwnStep(step) && step.ctx == Root(k)
    ensures Count(Leaves(s, step).Parked? || Leaves(s, step).Woken?)
         == Count(Asleep(s, k)) + Count(step == Park(Root(k))) - Count(step == Poll(Root(k)))
  {
    if step.Park? { assert InControl(stack, step.ctx); }
  }

  lemma {:induction false} RunSleeps(sp: int, steps: seq<Step>, k: nat)
    requires steps != [] && Exec(Initial(sp), steps).Some?
    ensures Count(Asleep(Exec(Initial(sp), steps).value, k))
         == Count(Asleep(Exec(Initial(sp), steps[..|steps| - 1]).value, k))
            + Count(steps[|steps| - 1] == Park(Root(k))) - Count(steps[|steps| - 1] == Poll(Root(k)))
  {
    var before := steps[..|steps| - 1];
    EveryRun(sp, before);
    AsleepStep(Exec(Initial(sp), before).value, MoveAll([], before), steps[|steps| - 1], k);
  }

  /** In every run the job has parked once for each time it polled again, and once more while it sleeps. */
  lemma {:induction false} ParksMatchPolls(sp: int, steps: seq<Step>, k: nat)
    requires Exec(Initial(sp), steps).Some?
    ensures ParksOf(steps, k) == PollsOf(steps, k) + Count(Asleep(Exec(Initial(sp), steps).value, k))
    decreases |steps|
  {
    if steps != [] {
      ParksMatchPolls(sp, steps[..|steps| - 1], k);
      RunSleeps(sp, steps, k);
    }
  }

  /** Each of its parks followed a poll that was Pending. */
  lemma {:induction false} ParksArePending<T>(sp: int, steps: seq<Step>, k: nat, fut: Future<T>)
    requires Exec(Initial(sp), steps).Some? && Follows(steps, k, fut)
    ensures forall m | 0 <= m < ParksOf(steps, k) :: fut.Answer(m).None?
    decreases |steps|
  {
    if steps != [] {
      var before := steps[..|steps| - 1];
      ParksArePending(sp, before, k, fut);
      if steps[|steps| - 1] == Park(Root(k)) { ParkAfterPoll(sp, steps, k); }
    }
  }

  lemma ParkAfterPoll(sp: int, steps: seq<Step>, k: nat)
    requires Exec(Initial(sp), steps).Some? && steps != [] && steps[|steps| - 1] == Park(Root(k))
    ensures ParksOf(steps[..|steps| - 1], k) == PollsOf(steps[..|steps| - 1], k)
  {
    ParksMatchPolls(sp, steps[..|steps| - 1], k);
    ParksMatchPolls(sp, steps, k);
  }

  /** The activation of job `k` has returned. */
  predicate Returned(s: State, k: nat) {
    Is(s, Root(k), Ended(true)) || (k < |s.jobs| && s.jobs[k] == Settled(true))
  }

  lemma ReturnedStep(s: State, stack: Stack, step: Step, k: nat)
    requires Inv(s, stack) && Enabled(s, step) && Returned(Apply(s, step), k)
    ensures step == Return(Root(k)) || (Returned(s, k) && step != Poll(Root(k)))
  {
    if Is(Apply(s, step), Root(k), Ended(true)) {
      EndedStep(s, stack, step, k);
    } else {
      SettledStep(s, stack, step, k);
    }
  }

  lemma EndedStep(s: State, stack: Stack, step: Step, k: nat)
    requires Inv(s, stack) && Enabled(s, step) && Is(Apply(s, step), Root(k), Ended(true))
    ensures step == Return(Root(k)) || (Is(s, Root(k), Ended(true)) && step != Poll(Root(k)))
  {
    if OwnStep(step) && step.ctx == Root(k) {
      OwnStepLeaves(s, step);
    } else {
      RootTouched(s, stack, step, Root(k));
    }
  }

  lemma SettledStep(s: State, stack: Stack, step: Step, k: nat)
    requires Inv(s, stack) && Enabled(s, step)
    requires k < |Apply(s, step).jobs| && Apply(s, step).jobs[k] == Settled(true)
    ensures Returned(s, k) && step != Poll(Root(k))
  {
    if Root(k) in s.ctxs { LiveRootStarted(s, stack, k); }
    if !step.Drive? && !step.Start? && !step.SettleJob? { OnlyJobStepsTouchJobs(s, step); }
  }

  lemma {:induction false} RunReturns(sp: int, steps: seq<Step>, k: nat)
    requires steps != [] && Exec(Initial(sp), steps).Some? && Returned(Exec(Initial(sp), steps).value, k)
    ensures var before, last := steps[..|steps| - 1], steps[|steps| - 1];
            last == Return(Root(k)) || (Returned(Exec(Initial(sp), before).value, k) && last != Poll(Root(k)))
  {
    var before := steps[..|steps| - 1];
    EveryRun(sp, before);
    ReturnedStep(Exec(Initial(sp), before).value, MoveAll([], before), steps[|steps| - 1], k);
  }

  /** A job that has returned polled last when its future was Ready. */
  lemma {:induction false} ReturnedWhenReady<T>(sp: int, steps: seq<Step>, k: nat, fut: Future<T>)
    requires Exec(Initial(sp), steps).Some? && Follows(steps, k, fut) && Returned(Exec(Initial(sp), steps).value, k)
    ensures fut.Answer(PollsOf(steps, k)).Some?
    decreases |steps|
  {
    if steps != [] {
      var before, last := steps[..|steps| - 1], steps[|steps| - 1];
      RunReturns(sp, steps, k);
      if last != Return(Root(k)) { ReturnedWhenReady(sp, before, k, fut); }
    }
  }

  /**
   A job whose promise resolved has polled its future until it was first Ready,
   and parked once for every Pending before that.
   */
  lemma {:induction false} ResolvedWhenReady<T>(sp: int, steps: seq<Step>, k: nat, fut: Future<T>)
    requires Exec(Initial(sp), steps).Some? && Follows(steps, k, fut)
    requires Promised(Exec(Initial(sp), steps).value, true, k) == Some(true)
    ensures ParksOf(steps, k) == PollsOf(steps, k) && fut.ReadyAt(ParksOf(steps, k))
  {
    JobsSerialized(sp, steps);
    ParksMatchPolls(sp, steps, k);
    ParksArePending(sp, steps, k, fut);
    ReturnedWhenReady(sp, steps, k, fut);
  }

  // The promise of the job

  /** What a settled promise of `drive` reports: rejected when nothing was queued, else the outcome of the job. */
  function Promised(s: State, accepted: bool, k: nat): Option<bool> {
    if !accepted then Some(false)
    else if k < |s.jobs| then match s.jobs[k] case Settled(ok) => Some(ok) case _ => None
    else None
  }

  /** The activation of a settled job began exactly once, and its promise has the outcome of that activation. */
  lemma SettledRanOnce(sp: int, steps: seq<Step>, k: nat)
    requires Exec(Initial(sp), steps).Some?
    requires var s := Exec(Initial(sp), steps).value; k < |s.jobs| && s.jobs[k].Settled?
    ensures var s := Exec(Initial(sp), steps).value;
            && k < |s.startLog| && (forall i | 0 <= i < |s.startLog| :: s.startLog[i] == k <==> i == k)
            && k in s.outcomes && Promised(s, true, k) == Some(s.outcomes[k])
  {
    JobsSerialized(sp, steps);
    EveryRun(sp, steps);
  }

  /** Step `i` of the run is a trap, in the job itself or in a fiber it runs, while job `k` is in flight. */
  ghost predicate TrapsIn(sp: int, steps: seq<Step>, i: nat, k: nat) {
    && i < |steps| && steps[i].Trap?
    && Exec(Initial(sp), steps[..i]).Some?
    && Root(k) in Exec(Initial(sp), steps[..i]).value.ctxs
  }

  /** After any trap in its chain the promise of a job never resolves. */
  lemma TrapNeverResolves(sp: int, steps: seq<Step>, i: nat, k: nat)
    requires Exec(Initial(sp), steps).Some? && TrapsIn(sp, steps, i, k)
    ensures Promised(Exec(Initial(sp), steps).value, true, k) != Some(true)
  {
    var upto, after := steps[..i + 1], steps[i + 1..];
    assert steps == upto + after && upto[..i] == steps[..i];
    ExecPrefix(Initial(sp), upto, after);
    ExecConcat(Initial(sp), upto, after);
    EveryRun(sp, steps[..i]);
    EveryRun(sp, upto);
    TrapUnwinds(Exec(Initial(sp), steps[..i]).value, MoveAll([], steps[..i]), steps[i].ctx, k);
    UnwindingNeverResolves(Exec(Initial(sp), upto).value, MoveAll([], upto), after, k);
  }

  lemma UnwindingNeverResolves(s0: State, stack0: Stack, steps: seq<Step>, k: nat)
    requires Inv(s0, stack0) && Unwinding(s0, stack0) && stack0[0] == Root(k) && Exec(s0, steps).Some?
    ensures Promised(Exec(s0, steps).value, true, k) != Some(true)
  {
    TrapReachesJob(s0, stack0, steps);
    RunKeepsInv(s0, stack0, steps);
  }

  lemma {:induction false} ExecPrefix(s: State, a: seq<Step>, b: seq<Step>)
    requires Exec(s, a + b).Some?
    ensures Exec(s, a).Some?
    decreases |b|
  {
    if b == [] {
      assert a + b == a;
    } else {
      assert (a + b)[..|a + b| - 1] == a + b[..|b| - 1];
      ExecPrefix(s, a, b[..|b| - 1]);
    }
  }

  lemma TrapUnwinds(s: State, stack: Stack, c: Ctx, k: nat)
    requires Inv(s, stack) && Enabled(s, Trap(c)) && Root(k) in s.ctxs
    ensures Unwinding(Apply(s, Trap(c)), stack) && stack[0] == Root(k)
  {
    assert InControl(stack, c);
    EndLeaves(s, c, false);
    LiveRootStarted(s, stack, k);
  }

  // The Rust side

  /** What `run` shares with the closure it hands to the glue. */
  class Staged<T> {
    var fut: Option<Future<T>>
    var out: Option<T>

    constructor (fut: Future<T>)
      ensures this.fut == Some(fut) && out == None
    {
      this.fut, out := Some(fut), None;
    }

    /** The closure: it takes the future, so it can run only once. */
    method Job() returns (parks: nat)
      requires fut.Some? && exists n: nat :: fut.value.ReadyAt(n)
      modifies this
      ensures fut == None && out.Some? && old(fut).value.ReadyAt(parks) && out == old(fut).value.Answer(parks)
    {
      var taken := fut.value;
      fut := None;
      var v;
      v, parks := BlockOn(taken);
      out := Some(v);
    }
  }

  /** Polls until Ready, and parks once for every Pending. */
  method BlockOn<T>(fut: Future<T>) returns (v: T, parks: nat)
    requires exists n: nat :: fut.ReadyAt(n)
    ensures fut.ReadyAt(parks) && fut.Answer(parks) == Some(v)
  {
    ghost var n: nat :| fut.ReadyAt(n);
    parks := 0;
    while fut.Answer(parks).None?
      invariant parks <= n && forall m | 0 <= m < parks :: fut.Answer(m).None?
      decreases n - parks
    {
      parks := parks + 1;
    }
    v := fut.Answer(parks).value;
  }

  /**
   `run`, in any run of the protocol in which its promise has settled and its
   job polled its future. It gives the output exactly when the promise resolved,
   after as many parks as the job made; a trap in its chain makes it fail.
   */
  method Run<T>(fut: Future<T>, accepted: bool, promised: bool, ghost sp: int, ghost steps: seq<Step>, ghost k: nat)
      returns (r: Result<T, RunError>, parks: nat)
    requires Exec(Initial(sp), steps).Some?
    requires Promised(Exec(Initial(sp), steps).value, accepted, k) == Some(promised)
    requires accepted ==> Follows(steps, k, fut)
    ensures r.Ok? <==> Promised(Exec(Initial(sp), steps).value, accepted, k) == Some(true)
    ensures r.Ok? ==> parks == ParksOf(steps, k) == PollsOf(steps, k)
    ensures r.Ok? ==> fut.ReadyAt(parks) && fut.Answer(parks) == Some(r.value)
    ensures accepted && (exists i: nat :: TrapsIn(sp, steps, i, k)) ==> r == Err(ActivationFailed)
  {
    var staged := new Staged(fut);
    parks := 0;
    if !promised {
      return Err(ActivationFailed), 0;
    }
    ResolvedWhenReady(sp, steps, k, fut);
    forall i | TrapsIn(sp, steps, i, k) ensures false { TrapNeverResolves(sp, steps, i, k); }
    parks := staged.Job();
    return Ok(staged.out.value), parks;
  }
}
