/** Whole-run results about the fiber and job protocol. */
module FiberRuns {
  import opened Wrappers
  import opened Fibers
  import opened FiberTheorems

  /** Every state of every run satisfies the invariant, for the stack the abstract machine has reached. */
  lemma {:induction false} EveryRun(sp: int, steps: seq<Step>)
    requires Exec(Initial(sp), steps).Some?
    ensures Inv(Exec(Initial(sp), steps).value, MoveAll([], steps))
    decreases |steps|
  {
    if steps == [] {
      InitialInv(sp);
    } else {
      var before := steps[..|steps| - 1];
      EveryRun(sp, before);
      StepKeepsInv(Exec(Initial(sp), before).value, MoveAll([], before), steps[|steps| - 1]);
    }
  }

  lemma {:induction false} RunKeepsInv(s: State, stack: Stack, steps: seq<Step>)
    requires Inv(s, stack) && Exec(s, steps).Some?
    ensures Inv(Exec(s, steps).value, MoveAll(stack, steps))
    decreases |steps|
  {
    if steps != [] {
      var before := steps[..|steps| - 1];
      RunKeepsInv(s, stack, before);
      StepKeepsInv(Exec(s, before).value, MoveAll(stack, before), steps[|steps| - 1]);
    }
  }

  /** The context that waits in the slot of fiber `top`. */
  predicate HeldBy(s: State, c: Ctx, top: int) {
    top in s.fibers && s.fibers[top].slot.Some? && s.fibers[top].slot.value.ctx == c
  }

  /** The fiber in whose slot a waiting context sits: the next one up the chain, or itself when suspended. */
  ghost function Holder(stack: Stack, c: Ctx): int
    requires c in stack || c.Fiber?
  {
    if c in stack then
      var i :| 0 <= i < |stack| && stack[i] == c;
      if i + 1 < |stack| && stack[i + 1].Fiber? then stack[i + 1].top else 0
    else c.top
  }

  /**
   No context is lost or duplicated. A context that is not in control sits in
   the slot of exactly one fiber; the one in control sits in none.
   */
  lemma EachWaiterInOneSlot(s: State, stack: Stack, c: Ctx)
    requires Inv(s, stack) && c in s.ctxs
    ensures s.ctxs[c] == Waiting ==> HeldBy(s, c, Holder(stack, c))
    ensures forall top, top' | HeldBy(s, c, top) && HeldBy(s, c, top') :: top == top'
    ensures s.ctxs[c] != Waiting ==> InControl(stack, c) && forall top :: !HeldBy(s, c, top)
  {
    forall top | HeldBy(s, c, top)
      ensures s.ctxs[c] == Waiting && (c in stack || c == Fiber(top)) && top == Holder(stack, c)
    {
      SlotHolder(s, stack, c, top);
    }
    if s.ctxs[c] == Waiting && c in stack {
      var i :| 0 <= i < |stack| && stack[i] == c;
      assert i + 1 < |stack|;
      assert ReturnsTo(s, stack[i + 1].top, stack[i]);
    } else if s.ctxs[c] == Waiting {
      assert Dormant(s, c.top);
    }
  }

  lemma SlotHolder(s: State, stack: Stack, c: Ctx, top: int)
    requires Inv(s, stack) && c in s.ctxs && HeldBy(s, c, top)
    ensures s.ctxs[c] == Waiting && (c in stack || c == Fiber(top)) && top == Holder(stack, c)
  {
    assert IsStarted(s.fibers, top);
    if Fiber(top) in stack {
      var j :| 0 <= j < |stack| && stack[j] == Fiber(top);
      assert ReturnsTo(s, top, stack[j - 1]);
      assert c == stack[j - 1];
      assert !InControl(stack, c);
    } else {
      assert Dormant(s, top);
      assert !InControl(stack, c);
    }
  }

  /**
   A fiber that suspends itself, or whose activation ends, hands control to the
   context that resumed it last, with that context's own stack pointer.
   */
  lemma ReturnsToLastResumer(s: State, stack: Stack, top: int, step: Step)
    requires Inv(s, stack) && Enabled(s, step)
    requires step == Switch(Fiber(top), top) || step == SettleFiber(top)
    ensures |stack| > 1 && stack[|stack| - 1] == Fiber(top)
    ensures top in s.resumer && s.resumer[top] == stack[|stack| - 2]
    ensures var t := Apply(s, step); var back := s.resumer[top];
            && InControl(Move(stack, step), back)
            && Is(t, back, Waking(step.Switch? || s.ctxs[Fiber(top)].ok))
            && t.sp == Own(s.base, s.depth, back)
  {
    assert InControl(stack, Fiber(top));
    assert ReturnsTo(s, top, stack[|stack| - 2]);
  }

  /** Resuming a suspended fiber brings back its own stack pointer, and entering a new one starts 16 below its top. */
  lemma SwitchedInPointer(s: State, stack: Stack, c: Ctx, top: int)
    requires Inv(s, stack) && Enabled(s, Switch(c, top)) && c != Fiber(top)
    ensures var t := Apply(s, Switch(c, top));
            && Move(stack, Switch(c, top)) == stack + [Fiber(top)]
            && t.resumer[top] == c
            && t.sp == if s.fibers[top].started then Own(s.base, s.depth, Fiber(top)) else top - 16
  {
    assert InControl(stack, c);
    if s.fibers[top].started {
      NotInChain(s, stack, top);
      assert Dormant(s, top);
    }
  }

  /** The reaction to the end of an activation. */
  function Settling(c: Ctx): Step {
    match c
    case Root(k) => SettleJob(k)
    case Fiber(top) => SettleFiber(top)
  }

  /** Nothing in the glue blocks: whatever the context in control is due for can happen. */
  lemma NeverStuck(s: State, stack: Stack)
    requires Inv(s, stack)
    ensures Enabled(s, Unpark)
    ensures stack != [] ==> Top(stack) in s.ctxs
    ensures stack != [] ==> match s.ctxs[Top(stack)]
                            case Running => forall top | Switchable(s, Top(stack), top) :: Enabled(s, Switch(Top(stack), top))
                            case Waiting => false
                            case Waking(_) => Enabled(s, Resume(Top(stack)))
                            case Parked => s.parked == Some(Top(stack))
                            case Woken => Enabled(s, Poll(Top(stack)))
                            case Ended(_) => Enabled(s, Settling(Top(stack)))
  {
    if stack != [] {
      assert InControl(stack, Top(stack));
      if Top(stack).Fiber? { assert ReturnsTo(s, Top(stack).top, stack[|stack| - 2]); }
      forall top | Is(s, Top(stack), Running) && Switchable(s, Top(stack), top)
        ensures Enabled(s, Switch(Top(stack), top))
      {
        if s.fibers[top].started && Fiber(top) != Top(stack) {
          NotInChain(s, stack, top);
          assert Dormant(s, top);
        }
      }
    }
  }

  // Stack pointer over runs

  /** In every state along the run, `c` is live and not executing. */
  ghost predicate StaysSuspended(s: State, c: Ctx, steps: seq<Step>)
    requires Exec(s, steps).Some?
    decreases |steps|
  {
    && c in Exec(s, steps).value.ctxs && Exec(s, steps).value.ctxs[c] != Running
    && (steps != [] ==> StaysSuspended(s, c, steps[..|steps| - 1]))
  }

  /** No step moves the stack of a context that is not executing. */
  lemma OtherStacksUntouched(s: State, stack: Stack, step: Step, c: Ctx)
    requires Inv(s, stack) && Enabled(s, step) && c in s.ctxs && s.ctxs[c] != Running
    ensures Own(Apply(s, step).base, Apply(s, step).depth, c) == Own(s.base, s.depth, c)
  {
    OnlyStartsAndSwitchesSetBases(s, step);
    OnlyOwnFramesMove(s, step);
    if step.Start? {
      StartsAlone(s, stack, step.job);
    } else if step.Switch? {
      if !s.fibers[step.top].started { UnstartedNotInChain(s, stack, step.top); }
    }
  }

  lemma OnlyOwnFramesMove(s: State, step: Step)
    requires Enabled(s, step)
    ensures step.Start? ==> Apply(s, step).depth == s.depth[Root(step.job) := 0]
    ensures step.Switch? ==>
              Apply(s, step).depth == if s.fibers[step.top].started then s.depth else s.depth[Fiber(step.top) := 0]
    ensures step.Frames? ==>
              Is(s, step.ctx, Running)
              && forall c | c != step.ctx && c in s.depth ::
                   c in Apply(s, step).depth && Apply(s, step).depth[c] == s.depth[c]
    ensures !step.Start? && !step.Switch? && !step.Frames? ==> Apply(s, step).depth == s.depth
  {
  }

  lemma {:induction false} SuspendedStackUntouched(s: State, stack: Stack, c: Ctx, steps: seq<Step>)
    requires Inv(s, stack) && Exec(s, steps).Some? && StaysSuspended(s, c, steps)
    ensures var t := Exec(s, steps).value; Own(t.base, t.depth, c) == Own(s.base, s.depth, c)
    decreases |steps|
  {
    if steps != [] {
      var before := steps[..|steps| - 1];
      SuspendedStackUntouched(s, stack, c, before);
      RunKeepsInv(s, stack, before);
      OtherStacksUntouched(Exec(s, before).value, MoveAll(stack, before), steps[|steps| - 1], c);
    }
  }

  /**
   Shadow-stack discipline: whenever a context that gave up control, by a
   switch or by parking, is about to be resumed, the stack pointer is the one
   it had when it gave up control, whatever ran in between.
   */
  lemma PointerRestored(s: State, stack: Stack, c: Ctx, leave: Step, steps: seq<Step>)
    requires Inv(s, stack) && Enabled(s, leave) && (leave == Park(c) || (leave.Switch? && leave.ctx == c))
    requires Exec(Apply(s, leave), steps).Some? && StaysSuspended(Apply(s, leave), c, steps)
    requires var t := Exec(Apply(s, leave), steps).value; t.ctxs[c].Waking? || t.ctxs[c].Woken?
    ensures Exec(Apply(s, leave), steps).value.sp == s.sp
  {
    assert InControl(stack, c);
    var s1, stack1 := Apply(s, leave), Move(stack, leave);
    StepKeepsInv(s, stack, leave);
    SuspendedStackUntouched(s1, stack1, c, steps);
    RunKeepsInv(s1, stack1, steps);
    assert InControl(MoveAll(stack1, steps), c);
    LeavingKeepsOwn(s, stack, c, leave);
  }

  lemma LeavingKeepsOwn(s: State, stack: Stack, c: Ctx, leave: Step)
    requires Inv(s, stack) && Enabled(s, leave) && (leave == Park(c) || (leave.Switch? && leave.ctx == c))
    ensures Own(Apply(s, leave).base, Apply(s, leave).depth, c) == Own(s.base, s.depth, c)
  {
    OnlyStartsAndSwitchesSetBases(s, leave);
    OnlyOwnFramesMove(s, leave);
    if leave.Switch? && !s.fibers[leave.top].started { UnstartedNotInChain(s, stack, leave.top); }
  }

  /** The base of a job's stack is the pointer it was started with, for as long as it is live. */
  lemma {:induction false} BaseIsStartPointer(s: State, stack: Stack, k: nat, steps: seq<Step>)
    requires Inv(s, stack) && Enabled(s, Start(k)) && Exec(Apply(s, Start(k)), steps).Some?
    ensures var t := Exec(Apply(s, Start(k)), steps).value;
            k < |t.jobs| && t.jobs[k] != Queued && Root(k) in t.base && t.base[Root(k)] == s.sp
    decreases |steps|
  {
    if steps != [] {
      var before := steps[..|steps| - 1];
      BaseIsStartPointer(s, stack, k, before);
      BaseStable(Exec(Apply(s, Start(k)), before).value, steps[|steps| - 1], k);
    }
  }

  lemma BaseStable(s: State, step: Step, k: nat)
    requires Enabled(s, step) && k < |s.jobs| && s.jobs[k] != Queued && Root(k) in s.base
    ensures var t := Apply(s, step);
            k < |t.jobs| && t.jobs[k] != Queued && Root(k) in t.base && t.base[Root(k)] == s.base[Root(k)]
  {
    OnlyStartsAndSwitchesSetBases(s, step);
    if step.Drive? || step.Start? || step.SettleJob? {
    } else {
      OnlyJobStepsTouchJobs(s, step);
    }
  }

  lemma OnlyStartsAndSwitchesSetBases(s: State, step: Step)
    requires Enabled(s, step)
    ensures !step.Start? && !step.Switch? ==> Apply(s, step).base == s.base
    ensures step.Start? ==> Apply(s, step).base == s.base[Root(step.job) := s.sp]
    ensures step.Switch? ==>
              Apply(s, step).base == if s.fibers[step.top].started then s.base else s.base[Fiber(step.top) := step.top - 16]
  {
  }

  lemma OnlyJobStepsTouchJobs(s: State, step: Step)
    requires Enabled(s, step) && !step.Drive? && !step.Start? && !step.SettleJob?
    ensures Apply(s, step).jobs == s.jobs
  {
  }

  /**
   A job that returns leaves the stack pointer as it found it. A job that traps
   leaves it below by exactly the frames it still had; so the pointer is back
   if and only if the job ended with no frames of its own.
   */
  lemma PointerAfterJob(s: State, stack: Stack, k: nat, steps: seq<Step>)
    requires Inv(s, stack) && Enabled(s, Start(k)) && Exec(Apply(s, Start(k)), steps).Some?
    requires var t := Exec(Apply(s, Start(k)), steps).value; Root(k) in t.ctxs && t.ctxs[Root(k)].Ended?
    ensures var t := Exec(Apply(s, Start(k)), steps).value;
            && Root(k) in t.depth
            && t.sp == s.sp - t.depth[Root(k)]
            && (t.ctxs[Root(k)].ok ==> t.sp == s.sp)
            && (t.sp == s.sp <==> t.depth[Root(k)] == 0)
  {
    var s1, stack1 := Apply(s, Start(k)), Move(stack, Start(k));
    StepKeepsInv(s, stack, Start(k));
    RunKeepsInv(s1, stack1, steps);
    BaseIsStartPointer(s, stack, k, steps);
    assert InControl(MoveAll(stack1, steps), Root(k));
  }

  /** A trapped job does leave the pointer low: the pointer is restored only for jobs that return. */
  lemma TrappedJobLeavesPointerLow(sp: int, frames: nat)
    ensures var s := Exec(Initial(sp), TrappedRun(frames));
            s.Some? && s.value.jobs == [Settled(false)] && s.value.sp == sp - frames
  {
    var r, first := Root(0), [] + [Setup] + [Drive] + [Start(0)];
    var s3 := FirstJobStarts(sp);
    ExecSnoc(Initial(sp), first, Frames(r, frames));
    ExecSnoc(Initial(sp), first + [Frames(r, frames)], Trap(r));
    ExecSnoc(Initial(sp), first + [Frames(r, frames)] + [Trap(r)], SettleJob(0));
  }

  lemma FirstJobStarts(sp: int) returns (s: State)
    ensures Exec(Initial(sp), [] + [Setup] + [Drive] + [Start(0)]) == Some(s)
    ensures s.jobs == [Started] && s.sp == sp && Is(s, Root(0), Running)
    ensures s.ctxs == map[Root(0) := Running] && s.depth == map[Root(0) := 0] && s.links == [false] && s.fibers == map[]
  {
    ExecSnoc(Initial(sp), [], Setup);
    ExecSnoc(Initial(sp), [] + [Setup], Drive);
    var s2 := Exec(Initial(sp), [] + [Setup] + [Drive]).value;
    assert s2.jobs == [Queued] && s2.links == [false];
    ExecSnoc(Initial(sp), [] + [Setup] + [Drive], Start(0));
    s := Apply(s2, Start(0));
  }

  function TrappedRun(frames: nat): seq<Step> {
    [] + [Setup] + [Drive] + [Start(0)] + [Frames(Root(0), frames)] + [Trap(Root(0))] + [SettleJob(0)]
  }

  lemma ExecSnoc(s: State, steps: seq<Step>, step: Step)
    requires Exec(s, steps).Some? && Enabled(Exec(s, steps).value, step)
    ensures Exec(s, steps + [step]) == Some(Apply(Exec(s, steps).value, step))
  {
    assert (steps + [step])[..|steps|] == steps;
  }

  // Jobs

  /** Jobs start one at a time in the order they were driven, each once; each promise has its own job's outcome. */
  lemma JobsSerialized(sp: int, steps: seq<Step>)
    requires Exec(Initial(sp), steps).Some?
    ensures var s := Exec(Initial(sp), steps).value;
            && (forall k | 0 <= k < |s.startLog| :: s.startLog[k] == k)
            && (forall j, k | 0 <= j < k < |s.jobs| && s.jobs[k] != Queued :: s.jobs[j].Settled?)
            && (forall k | 0 <= k < |s.jobs| && s.jobs[k].Settled? :: k in s.outcomes && s.outcomes[k] == s.jobs[k].ok)
            && (forall j: nat, k: nat | Root(j) in s.ctxs && Root(k) in s.ctxs :: j == k)
            && (forall k: nat | Root(k) in s.ctxs :: k < |s.jobs| && s.jobs[k] == Started)
  {
    EveryRun(sp, steps);
    var s, stack := Exec(Initial(sp), steps).value, MoveAll([], steps);
    forall j, k | 0 <= j < k < |s.jobs| && s.jobs[k] != Queued ensures s.jobs[j].Settled? {
      SettledBelow(s.jobs, s.links, s.startLog, k - 1, j);
    }
    forall k: nat | Root(k) in s.ctxs ensures k < |s.jobs| && s.jobs[k] == Started && stack != [] && stack[0] == Root(k) {
      LiveRootStarted(s, stack, k);
    }
  }

  /** A live root activation is the bottom of the stack. */
  lemma LiveRootStarted(s: State, stack: Stack, k: nat)
    requires Inv(s, stack) && Root(k) in s.ctxs
    ensures k < |s.jobs| && s.jobs[k] == Started && stack != [] && stack[0] == Root(k)
  {
    assert Root(k) in stack;
  }

  /** A settled job, failed or not, never blocks the next one: its link can resolve, and then the next job can start. */
  lemma {:induction false} SettledJobReleasesNext(sp: int, steps: seq<Step>, k: nat)
    requires Exec(Initial(sp), steps).Some?
    requires var s := Exec(Initial(sp), steps).value;
             k + 1 < |s.jobs| && s.jobs[k].Settled? && s.jobs[k + 1] == Queued
    ensures var s := Exec(Initial(sp), steps).value;
            && k < |s.links|
            && (!s.links[k] ==> Enabled(s, Link(k)) && Enabled(Apply(s, Link(k)), Start(k + 1)))
            && (s.links[k] ==> Enabled(s, Start(k + 1)))
  {
    EveryRun(sp, steps);
  }

  // Parking

  /** The 'already parked' throw is unreachable: a park either takes the pending wake or finds the cell free. */
  lemma {:induction false} ParkNeverThrows(sp: int, steps: seq<Step>, c: Ctx)
    requires Exec(Initial(sp), steps).Some? && Enabled(Exec(Initial(sp), steps).value, Park(c))
    ensures var s := Exec(Initial(sp), steps).value;
            s.parked.None? && Apply(s, Park(c)).ctxs[c] == if s.wakePending then Woken else Parked
  {
    EveryRun(sp, steps);
    assert InControl(MoveAll([], steps), c);
  }

  /** A semaphore that saturates at one: an unpark releases it, a park acquires it, and below zero somebody waits. */
  function SemaphoreStep(v: int, step: Step): int {
    if step.Unpark? then (if v < 1 then v + 1 else 1)
    else if step.Park? then v - 1
    else v
  }

  function Semaphore(steps: seq<Step>): int {
    if steps == [] then 0 else SemaphoreStep(Semaphore(steps[..|steps| - 1]), steps[|steps| - 1])
  }

  /** The park cell is that semaphore: a job is parked or a wake is pending, never both, and the two bits are its value. */
  lemma {:induction false} CellIsSemaphore(sp: int, steps: seq<Step>)
    requires Exec(Initial(sp), steps).Some?
    ensures var s := Exec(Initial(sp), steps).value;
            !(s.parked.Some? && s.wakePending) && Semaphore(steps) == Cell(s)
    decreases |steps|
  {
    EveryRun(sp, steps);
    if steps != [] {
      var before, last := steps[..|steps| - 1], steps[|steps| - 1];
      CellIsSemaphore(sp, before);
      EveryRun(sp, before);
      CellStep(Exec(Initial(sp), before).value, MoveAll([], before), last);
    }
  }

  /** The park cell as one number. */
  function Cell(s: State): int {
    Count(s.wakePending) - Count(s.parked.Some?)
  }

  lemma CellStep(s: State, stack: Stack, step: Step)
    requires Inv(s, stack) && Enabled(s, step)
    ensures Cell(Apply(s, step)) == SemaphoreStep(Cell(s), step)
  {
    if step.Park? {
      assert InControl(stack, step.ctx);
    } else if !step.Unpark? {
      OnlyParkingTouchesCell(s, step);
    }
  }

  lemma OnlyParkingTouchesCell(s: State, step: Step)
    requires Enabled(s, step) && !step.Park? && !step.Unpark?
    ensures Apply(s, step).parked == s.parked && Apply(s, step).wakePending == s.wakePending
  {
  }

  function Parks(steps: seq<Step>): nat {
    if steps == [] then 0 else Parks(steps[..|steps| - 1]) + Count(steps[|steps| - 1].Park?)
  }

  function Unparks(steps: seq<Step>): nat {
    if steps == [] then 0 else Unparks(steps[..|steps| - 1]) + Count(steps[|steps| - 1].Unpark?)
  }

  /** The unparks that found a wake pending already. */
  function Absorbed(steps: seq<Step>): nat {
    if steps == [] then 0
    else
      Absorbed(steps[..|steps| - 1])
      + Count(steps[|steps| - 1].Unpark? && Semaphore(steps[..|steps| - 1]) >= 1)
  }

  /**
   Every wake is accounted for: the parks that have been let go on are the
   unparks, less those absorbed by a pending wake and the one still pending.
   */
  lemma {:induction false} WakesAccounted(sp: int, steps: seq<Step>)
    requires Exec(Initial(sp), steps).Some?
    ensures var s := Exec(Initial(sp), steps).value;
            Parks(steps) - Count(s.parked.Some?) == Unparks(steps) - Absorbed(steps) - Count(s.wakePending)
  {
    CellIsSemaphore(sp, steps);
    SemaphoreCounts(steps);
  }

  lemma {:induction false} SemaphoreCounts(steps: seq<Step>)
    ensures Semaphore(steps) == Unparks(steps) - Absorbed(steps) - Parks(steps) && Semaphore(steps) <= 1
    decreases |steps|
  {
    if steps != [] { SemaphoreCounts(steps[..|steps| - 1]); }
  }

  /** When a job settles nothing is parked, no `block_on` is left waiting, and only suspended fibers remain. */
  lemma {:induction false} NothingParkedAfterJob(sp: int, steps: seq<Step>, k: nat)
    requires Exec(Initial(sp), steps).Some? && Enabled(Exec(Initial(sp), steps).value, SettleJob(k))
    ensures var t := Apply(Exec(Initial(sp), steps).value, SettleJob(k));
            t.parked.None? && forall c | c in t.ctxs :: c.Fiber? && t.ctxs[c] == Waiting
  {
    var s, stack := Exec(Initial(sp), steps).value, MoveAll([], steps);
    EveryRun(sp, steps);
    assert InControl(stack, Root(k));
    SettleJobKeeps(s, stack, k);
    RootOnTop(s, stack);
  }

  /**
   No lost wake-up: a wake that came since the latest poll began is never
   slept through. The job is not parked, and if it parks it is due for another
   poll at once.
   */
  lemma {:induction false} NoLostWake(sp: int, steps: seq<Step>)
    requires Exec(Initial(sp), steps).Some?
    requires var s := Exec(Initial(sp), steps).value; s.woken && exists k: nat :: Root(k) in s.ctxs
    ensures var s := Exec(Initial(sp), steps).value;
            && s.parked.None?
            && (forall c | c in s.ctxs :: !s.ctxs[c].Parked?)
            && forall c | Enabled(s, Park(c)) :: Enabled(Apply(s, Park(c)), Poll(c))
  {
    EveryRun(sp, steps);
    WakeIsDue(Exec(Initial(sp), steps).value, MoveAll([], steps));
  }

  lemma WakeIsDue(s: State, stack: Stack)
    requires Inv(s, stack) && s.woken && exists k: nat :: Root(k) in s.ctxs
    ensures stack != [] && s.parked.None?
    ensures forall c | c in s.ctxs :: !s.ctxs[c].Parked?
    ensures forall c | Enabled(s, Park(c)) :: Enabled(Apply(s, Park(c)), Poll(c))
  {
    var k: nat :| Root(k) in s.ctxs;
    assert Root(k) in stack;
    forall c | Enabled(s, Park(c)) ensures Enabled(Apply(s, Park(c)), Poll(c)) {
      assert InControl(stack, c);
      RootOnTop(s, stack);
    }
  }

  /** And so it stays, whatever happens, until that poll begins or the job settles. */
  lemma {:induction false} WakeStaysDue(s: State, stack: Stack, steps: seq<Step>)
    requires Inv(s, stack) && stack != [] && s.woken && Exec(s, steps).Some?
    requires forall i | 0 <= i < |steps| :: !steps[i].Poll? && !steps[i].SettleJob?
    ensures var t, after := Exec(s, steps).value, MoveAll(stack, steps);
            Inv(t, after) && after != [] && after[0] == stack[0] && t.woken && t.parked.None?
    decreases |steps|
  {
    if steps != [] {
      var before, last := steps[..|steps| - 1], steps[|steps| - 1];
      var mid, chain := Exec(s, before).value, MoveAll(stack, before);
      WakeStaysDue(s, stack, before);
      StepKeepsInv(mid, chain, last);
      WakeStaysDueStep(mid, chain, last);
    }
  }

  lemma WakeStaysDueStep(s: State, stack: Stack, step: Step)
    requires Inv(s, stack) && stack != [] && s.woken && Enabled(s, step) && !step.Poll? && !step.SettleJob?
    ensures Move(stack, step) != [] && Move(stack, step)[0] == stack[0] && Apply(s, step).woken
  {
    if !step.Start? { WokenUntilPoll(s, step); }
    if step.Start? {
      StartsAlone(s, stack, step.job);
    } else if step.SettleFiber? || (step.Switch? && step.ctx == Fiber(step.top)) {
      ReturnsToLastResumer(s, stack, step.top, step);
    }
  }

  lemma WokenUntilPoll(s: State, step: Step)
    requires Enabled(s, step) && !step.Poll? && !step.Start?
    ensures s.woken ==> Apply(s, step).woken
  {
  }

  /** Within one job there are at most two polls more than unparks: the first, and one for a wake left over from before. */
  lemma {:induction false} PollsBounded(sp: int, steps: seq<Step>, k: nat)
    requires Exec(Initial(sp), steps).Some? && Root(k) in Exec(Initial(sp), steps).value.ctxs
    ensures var s := Exec(Initial(sp), steps).value;
            s.polls <= 1 + Count(s.stale) + s.unparks <= 2 + s.unparks
  {
    EveryRun(sp, steps);
    assert Root(k) in MoveAll([], steps);
  }

  // Contexts

  /** A job started and not settled, or a fiber that has been entered and is still registered. */
  predicate Begun(s: State, c: Ctx) {
    match c
    case Root(k) => k < |s.jobs| && s.jobs[k] == Started
    case Fiber(top) => IsStarted(s.fibers, top)
  }

  /**
   The contexts are the activation of the job in flight, if there is one, and
   one per started fiber; with a job in flight exactly one of them is in
   control, otherwise none is.
   */
  lemma {:induction false} ContextsExactly(sp: int, steps: seq<Step>)
    requires Exec(Initial(sp), steps).Some?
    ensures var s := Exec(Initial(sp), steps).value;
            && (forall c :: c in s.ctxs <==> Begun(s, c))
            && (forall c, d | c in s.ctxs && d in s.ctxs && s.ctxs[c] != Waiting && s.ctxs[d] != Waiting :: c == d)
            && ((exists c :: c in s.ctxs && s.ctxs[c] != Waiting) <==> exists k: nat :: Root(k) in s.ctxs)
  {
    var s, stack := Exec(Initial(sp), steps).value, MoveAll([], steps);
    EveryRun(sp, steps);
    InControlExactly(s, stack);
  }

  lemma InControlExactly(s: State, stack: Stack)
    requires Inv(s, stack)
    ensures forall c :: c in s.ctxs <==> Begun(s, c)
    ensures forall c | c in s.ctxs :: s.ctxs[c] != Waiting <==> InControl(stack, c)
    ensures (exists c :: c in s.ctxs && s.ctxs[c] != Waiting) <==> exists k: nat :: Root(k) in s.ctxs
  {
    forall c ensures c in s.ctxs <==> Begun(s, c) {
      if c.Root? && c in s.ctxs {
        var i :| 0 <= i < |stack| && stack[i] == c;
        assert i == 0;
      }
    }
    if stack != [] {
      assert Top(stack) in s.ctxs && s.ctxs[Top(stack)] != Waiting;
      assert Root(stack[0].job) in s.ctxs;
    }
  }
}
