/**
 What the steps of the glue bring about: the life of a fiber from its
 registration to its end, the jobs that are queued, and what may happen next.
 */
module FiberLife {
  import opened Wrappers
  import opened Fibers
  import opened FiberTheorems
  import opened FiberRuns

  // The life of a fiber

  /**
   Registering a fiber changes nothing else, and makes it one that can be
   entered: it then executes from 16 below its top, and whoever switched to it
   waits in its slot and is its resumer.
   */
  lemma RegisteredCanBeEntered(s: State, stack: Stack, c: Ctx, top: int)
    requires Inv(s, stack) && Enabled(s, Init(c, top))
    ensures var t := Apply(s, Init(c, top));
            && t == s.(fibers := s.fibers[top := FiberRec(false, None)])
            && Enabled(t, Switch(c, top))
            && Entered(t, Apply(t, Switch(c, top)), c, top)
  {
    assert InControl(stack, c);
    if c.Fiber? { assert IsStarted(s.fibers, c.top); }
  }

  /** From `t` to `u` the fiber was entered by `c`. */
  ghost predicate Entered(t: State, u: State, c: Ctx, top: int) {
    && Is(u, Fiber(top), Running) && Is(u, c, Waiting)
    && u.sp == top - 16
    && u.fibers == t.fibers[top := FiberRec(true, Some(Waiter(c, t.sp)))]
    && u.resumer == t.resumer[top := c]
    && forall d | d != c && d != Fiber(top) :: (d in u.ctxs <==> d in t.ctxs) && (d in t.ctxs ==> u.ctxs[d] == t.ctxs[d])
  }

  /**
   A fiber that executes can suspend itself: it then sits in its own slot, and
   its last resumer resumes with the pointer it had.
   */
  lemma RunningCanSuspend(s: State, stack: Stack, top: int)
    requires Inv(s, stack) && Is(s, Fiber(top), Running)
    ensures Enabled(s, Switch(Fiber(top), top)) && top in s.resumer
    ensures var t, back := Apply(s, Switch(Fiber(top), top)), s.resumer[top];
            && Is(t, Fiber(top), Waiting) && t.fibers[top] == FiberRec(true, Some(Waiter(Fiber(top), s.sp)))
            && Enabled(t, Resume(back)) && Is(Apply(t, Resume(back)), back, Running)
            && Apply(t, Resume(back)).sp == Own(s.base, s.depth, back)
  {
    assert InControl(stack, Fiber(top));
    assert ReturnsTo(s, top, stack[|stack| - 2]);
  }

  /** And a suspended one can be resumed by whatever executes, with the pointer it suspended itself with. */
  lemma SuspendedCanResume(s: State, stack: Stack, c: Ctx, top: int)
    requires Inv(s, stack) && Is(s, c, Running) && IsStarted(s.fibers, top) && Fiber(top) !in stack
    ensures Enabled(s, Switch(c, top)) && s.fibers[top].slot.Some?
    ensures var t := Apply(s, Switch(c, top));
            && Is(t, c, Waiting) && t.resumer[top] == c
            && t.fibers[top] == FiberRec(true, Some(Waiter(c, s.sp)))
            && Enabled(t, Resume(Fiber(top))) && Is(Apply(t, Resume(Fiber(top))), Fiber(top), Running)
            && Apply(t, Resume(Fiber(top))).sp == s.fibers[top].slot.value.sp == Own(s.base, s.depth, Fiber(top))
  {
    assert InControl(stack, c);
    assert Dormant(s, top);
  }

  /** A fiber whose activation ends is gone, and its last resumer resumes; by a throw unless it returned. */
  lemma RunningCanEnd(s: State, stack: Stack, top: int, ok: bool)
    requires Inv(s, stack) && Is(s, Fiber(top), Running) && (ok ==> s.depth[Fiber(top)] == 0)
    ensures var end := if ok then Return(Fiber(top)) else Trap(Fiber(top));
            Enabled(s, end) && Apply(s, end) == End(s, Fiber(top), ok)
    ensures var t := End(s, Fiber(top), ok);
            Enabled(t, SettleFiber(top)) && top in s.resumer && Gone(s, Apply(t, SettleFiber(top)), top, ok)
  {
    assert InControl(stack, Fiber(top));
    assert ReturnsTo(s, top, stack[|stack| - 2]);
    EndedIsGone(s, top, s.resumer[top], ok);
  }

  /** From `s` to `t` the fiber has ended, and its last resumer is about to resume. */
  ghost predicate Gone(s: State, t: State, top: int, ok: bool)
    requires top in s.resumer
  {
    && t.fibers == s.fibers - {top} && Fiber(top) !in t.ctxs
    && Is(t, s.resumer[top], Waking(ok)) && Enabled(t, Resume(s.resumer[top]))
  }

  lemma EndedIsGone(s: State, top: int, back: Ctx, ok: bool)
    requires top in s.fibers && s.fibers[top].slot.Some? && s.fibers[top].slot.value.ctx == back
    requires back in s.ctxs && back != Fiber(top) && top in s.resumer && s.resumer[top] == back
    ensures var t := End(s, Fiber(top), ok); Enabled(t, SettleFiber(top)) && Gone(s, Apply(t, SettleFiber(top)), top, ok)
  {
  }

  /** A whole life: registered by a job, entered, suspended, resumed, and ended before the job is. */
  function Life(top: int): seq<Step> {
    [] + [Setup] + [Drive] + [Start(0)]
    + [Init(Root(0), top)] + [Switch(Root(0), top)] + [Switch(Fiber(top), top)] + [Resume(Root(0))]
    + [Switch(Root(0), top)] + [Resume(Fiber(top))] + [Return(Fiber(top))] + [SettleFiber(top)] + [Resume(Root(0))]
    + [Return(Root(0))] + [SettleJob(0)] + [Link(0)]
  }

  /** The job has resolved, the queue is free, no fiber is left, and the pointer is what it was. */
  ghost predicate Finished(sp: int, steps: seq<Step>) {
    var r := Exec(Initial(sp), steps);
    && r.Some? && r.value.jobs == [Settled(true)] && r.value.links == [true]
    && r.value.fibers == map[] && r.value.ctxs == map[] && r.value.sp == sp
  }

  /** It is a run of the protocol: in it the fiber is registered, executes, sleeps, executes again, and is gone. */
  lemma LifeRuns(sp: int, top: int)
    ensures var asleep := Exec(Initial(sp), Life(top)[..6]); asleep.Some? && FiberSleeps(asleep.value, sp, top)
    ensures var awake := Exec(Initial(sp), Life(top)[..9]); awake.Some? && FiberAwake(awake.value, sp, top)
    ensures Finished(sp, Life(top))
  {
    var s3 := FirstJobStarts(sp);
    var a := [] + [Setup] + [Drive] + [Start(0)];
    var s4 := LifeRegisters(sp, top, a, s3);
    a := a + [Init(Root(0), top)];
    var s5 := LifeEnters(sp, top, a, s3, s4);
    a := a + [Switch(Root(0), top)];
    var s6 := LifeSuspends(sp, top, a, s5);
    var b := a + [Switch(Fiber(top), top)];
    var s8 := LifeSwitchesBack(sp, top, b, s6);
    var c := b + [Resume(Root(0))] + [Switch(Root(0), top)];
    var s9 := LifeResumes(sp, top, c, s8);
    c := c + [Resume(Fiber(top))];
    var s11 := LifeEnds(sp, top, c, s9);
    var d := c + [Return(Fiber(top))] + [SettleFiber(top)];
    var s13 := JobReturns(sp, d, s11);
    JobEnds(sp, d + [Resume(Root(0))] + [Return(Root(0))], s13);
    assert Life(top)[..6] == b && Life(top)[..9] == c;
  }

  /** A job executes, and there is no fiber yet. */
  ghost predicate JobRuns(s: State, sp: int) {
    && s.jobs == [Started] && s.links == [false] && s.sp == sp && s.fibers == map[]
    && s.ctxs == map[Root(0) := Running] && s.depth == map[Root(0) := 0]
  }

  /** The job is about to go on, with one fiber suspended. */
  ghost predicate FiberSleeps(s: State, sp: int, top: int) {
    && s.jobs == [Started] && s.links == [false] && s.sp == sp
    && s.fibers == map[top := FiberRec(true, Some(Waiter(Fiber(top), top - 16)))]
    && s.ctxs == map[Root(0) := Waking(true), Fiber(top) := Waiting]
    && s.depth == map[Root(0) := 0, Fiber(top) := 0]
  }

  /** The fiber executes, and the job waits in its slot. */
  ghost predicate FiberAwake(s: State, sp: int, top: int) {
    && s.jobs == [Started] && s.links == [false] && s.sp == top - 16
    && s.fibers == map[top := FiberRec(true, Some(Waiter(Root(0), sp)))]
    && s.ctxs == map[Root(0) := Waiting, Fiber(top) := Running]
    && s.depth == map[Root(0) := 0, Fiber(top) := 0]
  }

  lemma LifeRegisters(sp: int, top: int, a: seq<Step>, s3: State) returns (s4: State)
    requires Exec(Initial(sp), a) == Some(s3) && JobRuns(s3, sp)
    ensures Exec(Initial(sp), a + [Init(Root(0), top)]) == Some(s4)
    ensures s4 == s3.(fibers := map[top := FiberRec(false, None)])
  {
    ExecSnoc(Initial(sp), a, Init(Root(0), top));
    s4 := Apply(s3, Init(Root(0), top));
  }

  lemma LifeEnters(sp: int, top: int, a: seq<Step>, s3: State, s4: State) returns (s5: State)
    requires Exec(Initial(sp), a) == Some(s4) && JobRuns(s3, sp)
    requires s4 == s3.(fibers := map[top := FiberRec(false, None)])
    ensures Exec(Initial(sp), a + [Switch(Root(0), top)]) == Some(s5)
    ensures FiberAwake(s5, sp, top)
  {
    ExecSnoc(Initial(sp), a, Switch(Root(0), top));
    s5 := Apply(s4, Switch(Root(0), top));
  }

  lemma LifeSuspends(sp: int, top: int, a: seq<Step>, s5: State) returns (s6: State)
    requires Exec(Initial(sp), a) == Some(s5) && FiberAwake(s5, sp, top)
    ensures Exec(Initial(sp), a + [Switch(Fiber(top), top)]) == Some(s6) && FiberSleeps(s6, sp, top)
  {
    ExecSnoc(Initial(sp), a, Switch(Fiber(top), top));
    s6 := Apply(s5, Switch(Fiber(top), top));
  }

  /** The fiber is about to go on, and the job waits in its slot. */
  ghost predicate FiberWakes(s: State, sp: int, top: int) {
    && s.jobs == [Started] && s.links == [false] && s.sp == top - 16
    && s.fibers == map[top := FiberRec(true, Some(Waiter(Root(0), sp)))]
    && s.ctxs == map[Root(0) := Waiting, Fiber(top) := Waking(true)]
    && s.depth == map[Root(0) := 0, Fiber(top) := 0]
  }

  lemma LifeSwitchesBack(sp: int, top: int, b: seq<Step>, s6: State) returns (s8: State)
    requires Exec(Initial(sp), b) == Some(s6) && FiberSleeps(s6, sp, top)
    ensures Exec(Initial(sp), b + [Resume(Root(0))] + [Switch(Root(0), top)]) == Some(s8) && FiberWakes(s8, sp, top)
  {
    ExecSnoc(Initial(sp), b, Resume(Root(0)));
    var s7 := Apply(s6, Resume(Root(0)));
    ExecSnoc(Initial(sp), b + [Resume(Root(0))], Switch(Root(0), top));
    s8 := Apply(s7, Switch(Root(0), top));
  }

  lemma LifeResumes(sp: int, top: int, b: seq<Step>, s8: State) returns (s9: State)
    requires Exec(Initial(sp), b) == Some(s8) && FiberWakes(s8, sp, top)
    ensures Exec(Initial(sp), b + [Resume(Fiber(top))]) == Some(s9) && FiberAwake(s9, sp, top)
  {
    ExecSnoc(Initial(sp), b, Resume(Fiber(top)));
    s9 := Apply(s8, Resume(Fiber(top)));
  }

  /** The job is about to go on, and no fiber is left. */
  ghost predicate FiberGone(s: State, sp: int) {
    && s.jobs == [Started] && s.links == [false] && s.sp == sp && s.fibers == map[]
    && s.ctxs == map[Root(0) := Waking(true)] && Root(0) in s.depth && s.depth[Root(0)] == 0
  }

  lemma LifeEnds(sp: int, top: int, c: seq<Step>, s9: State) returns (s11: State)
    requires Exec(Initial(sp), c) == Some(s9) && FiberAwake(s9, sp, top)
    ensures Exec(Initial(sp), c + [Return(Fiber(top))] + [SettleFiber(top)]) == Some(s11)
    ensures FiberGone(s11, sp)
  {
    ExecSnoc(Initial(sp), c, Return(Fiber(top)));
    var s10 := Apply(s9, Return(Fiber(top)));
    ExecSnoc(Initial(sp), c + [Return(Fiber(top))], SettleFiber(top));
    s11 := Apply(s10, SettleFiber(top));
  }

  lemma JobReturns(sp: int, d: seq<Step>, s11: State) returns (s13: State)
    requires Exec(Initial(sp), d) == Some(s11) && FiberGone(s11, sp)
    ensures Exec(Initial(sp), d + [Resume(Root(0))] + [Return(Root(0))]) == Some(s13)
    ensures s13.jobs == [Started] && s13.links == [false] && s13.sp == sp
    ensures s13.fibers == map[] && s13.ctxs == map[Root(0) := Ended(true)]
  {
    ExecSnoc(Initial(sp), d, Resume(Root(0)));
    var s12 := Apply(s11, Resume(Root(0)));
    ExecSnoc(Initial(sp), d + [Resume(Root(0))], Return(Root(0)));
    s13 := Apply(s12, Return(Root(0)));
  }

  lemma JobEnds(sp: int, e: seq<Step>, s13: State)
    requires Exec(Initial(sp), e) == Some(s13) && s13.jobs == [Started] && s13.links == [false] && s13.sp == sp
    requires s13.fibers == map[] && s13.ctxs == map[Root(0) := Ended(true)]
    ensures Finished(sp, e + [SettleJob(0)] + [Link(0)])
  {
    ExecSnoc(Initial(sp), e, SettleJob(0));
    var s14 := Apply(s13, SettleJob(0));
    ExecSnoc(Initial(sp), e + [SettleJob(0)], Link(0));
  }

  // What may happen

  /** Whatever executes may take frames, trap, register a fiber, return from its last frame, and park if it is a job. */
  lemma RunningMay(s: State, stack: Stack, c: Ctx)
    requires Inv(s, stack) && Is(s, c, Running)
    ensures InControl(stack, c) && c in s.depth
    ensures Enabled(s, Trap(c)) && forall d: nat :: Enabled(s, Frames(c, d))
    ensures forall top | !IsStarted(s.fibers, top) :: Enabled(s, Init(c, top))
    ensures s.depth[c] == 0 ==> Enabled(s, Return(c))
    ensures c.Root? ==> Enabled(s, Park(c))
  {
  }

  /** The pointer moves with the frames: taking more lowers it, and releasing all of them brings it to the base. */
  lemma FramesMovePointer(s: State, stack: Stack, c: Ctx, d: nat)
    requires Inv(s, stack) && Enabled(s, Frames(c, d))
    ensures var t := Apply(s, Frames(c, d));
            && c in s.base && t.sp == s.base[c] - d && t.ctxs == s.ctxs && t.fibers == s.fibers && t.jobs == s.jobs
  {
    assert InControl(stack, c);
  }

  // Jobs

  /** The jobs that have been driven: one for each `drive` behind a `setup`. */
  function Driven(steps: seq<Step>): nat {
    if steps == [] then 0
    else
      var before, last := steps[..|steps| - 1], steps[|steps| - 1];
      Driven(before) + if last == Drive && Setup in before then 1 else 0
  }

  /** Every `drive` behind a `setup` queues one job, and nothing else does. */
  lemma {:induction false} JobsDriven(sp: int, steps: seq<Step>)
    requires Exec(Initial(sp), steps).Some?
    ensures var s := Exec(Initial(sp), steps).value;
            (s.ready <==> Setup in steps) && |s.jobs| == Driven(steps) && |s.links| == |s.jobs|
    decreases |steps|
  {
    if steps != [] {
      var before, last := steps[..|steps| - 1], steps[|steps| - 1];
      JobsDriven(sp, before);
      assert steps == before + [last];
      JobsByStep(Exec(Initial(sp), before).value, last);
    }
  }

  lemma JobsByStep(s: State, step: Step)
    requires Enabled(s, step)
    ensures var t := Apply(s, step);
            && (t.ready <==> s.ready || step == Setup)
            && |t.jobs| == |s.jobs| + Count(step == Drive && s.ready)
            && |t.links| == |s.links| + Count(step == Drive && s.ready)
            && (step == Drive && s.ready ==> t.jobs == s.jobs + [Queued])
  {
  }

  /** With no job in flight and one queued, the queue moves: the next link resolves, or the next job starts. */
  lemma QueueMoves(s: State, k: nat) returns (next: Step)
    requires Inv(s, []) && k < |s.jobs| && s.jobs[k] == Queued
    ensures Enabled(s, next) && (next == Start(|s.startLog|) || (|s.startLog| > 0 && next == Link(|s.startLog| - 1)))
  {
    var n := |s.startLog|;
    assert n <= k;
    next := if n == 0 || s.links[n - 1] then Start(n) else Link(n - 1);
  }
}
