/** Trap propagation: a trap unwinds the whole resumer chain to the job's promise, and nothing else. */
module FiberTraps {
  import opened Wrappers
  import opened Fibers
  import opened FiberTheorems
  import opened FiberRuns

  /** The context in control has trapped, or is about to be resumed with a throw. */
  predicate Unwinding(s: State, stack: Stack) {
    stack != [] && Top(stack) in s.ctxs && s.ctxs[Top(stack)] in {Ended(false), Waking(false)}
  }

  function Tops(stack: Stack): set<int> {
    set i | 0 <= i < |stack| && stack[i].Fiber? :: stack[i].top
  }

  /** From `s0`, the chain `stack0` has been unwound down to `stack`: exactly the fibers above it are gone. */
  ghost predicate UnwoundTo(s0: State, stack0: Stack, s: State, stack: Stack) {
    && Unwinding(s, stack)
    && |stack| <= |stack0| && stack == stack0[..|stack|]
    && s.fibers == s0.fibers - Tops(stack0[|stack|..])
  }

  /**
   While a chain unwinds no other step touches it: every step either leaves it
   where it is, or takes it one context further down, or settles the job as failed.
   */
  lemma UnwindStep(s0: State, stack0: Stack, s: State, stack: Stack, step: Step)
    requires Inv(s, stack) && UnwoundTo(s0, stack0, s, stack) && Enabled(s, step)
    ensures if step.SettleJob? then
              && |stack| == 1 && stack[0] == Root(step.job)
              && Apply(s, step).jobs[step.job] == Settled(false) && Apply(s, step).fibers == s.fibers
            else UnwoundTo(s0, stack0, Apply(s, step), Move(stack, step))
  {
    if step.SettleJob? {
      assert InControl(stack, Root(step.job));
      RootOnTop(s, stack);
    } else if step.SettleFiber? {
      UnwindSettles(s0, stack0, s, stack, step.top);
    } else {
      UnwindWaits(s, stack, step);
    }
  }

  /** Only the reactions to the trap move the chain. */
  lemma UnwindWaits(s: State, stack: Stack, step: Step)
    requires Inv(s, stack) && Unwinding(s, stack) && Enabled(s, step) && !step.SettleJob? && !step.SettleFiber?
    ensures Move(stack, step) == stack && Unwinding(Apply(s, step), stack) && Apply(s, step).fibers == s.fibers
  {
    NobodyRuns(s, stack);
    if step.Start? {
      StartsAlone(s, stack, step.job);
    } else if step.Resume? {
      assert InControl(stack, step.ctx);
    }
  }

  /** While a chain unwinds nothing executes, and nothing is parked. */
  lemma NobodyRuns(s: State, stack: Stack)
    requires Inv(s, stack) && Unwinding(s, stack)
    ensures forall c | c in s.ctxs :: s.ctxs[c] in {Waiting, Ended(false), Waking(false)}
    ensures s.parked.None?
  {
    assert forall c | c in s.ctxs && s.ctxs[c] != Waiting :: InControl(stack, c);
  }

  /** The reaction to a fiber's trap takes just that fiber off the chain. */
  lemma UnwindSettles(s0: State, stack0: Stack, s: State, stack: Stack, top: int)
    requires Inv(s, stack) && UnwoundTo(s0, stack0, s, stack) && Enabled(s, SettleFiber(top))
    ensures UnwoundTo(s0, stack0, Apply(s, SettleFiber(top)), Below(stack))
  {
    SettleThrows(s, stack, top);
    TopsOneMore(stack0, |stack| - 1);
    FibersMinus(s0, stack0, s, |stack| - 1, top);
  }

  /** The reaction wakes the next context down with a throw. */
  lemma SettleThrows(s: State, stack: Stack, top: int)
    requires Inv(s, stack) && Unwinding(s, stack) && Enabled(s, SettleFiber(top))
    ensures |stack| > 1 && Top(stack) == Fiber(top) && Unwinding(Apply(s, SettleFiber(top)), Below(stack))
    ensures Apply(s, SettleFiber(top)).fibers == s.fibers - {top}
  {
    assert InControl(stack, Fiber(top));
    assert ReturnsTo(s, top, stack[|stack| - 2]);
  }

  lemma TopsOneMore(stack: Stack, n: nat)
    requires n < |stack| && stack[n].Fiber?
    ensures Tops(stack[n..]) == Tops(stack[n + 1..]) + {stack[n].top}
  {
    var a, b := stack[n..], stack[n + 1..];
    assert forall i | 0 <= i < |b| :: b[i] == a[i + 1];
    forall t | t in Tops(a) ensures t in Tops(b) + {stack[n].top} {
      var i :| 0 <= i < |a| && a[i].Fiber? && a[i].top == t;
      if i > 0 { assert b[i - 1] == a[i]; }
    }
    assert a[0] == stack[n];
  }

  lemma FibersMinus(s0: State, stack0: Stack, s: State, n: nat, top: int)
    requires n < |stack0| && Tops(stack0[n..]) == Tops(stack0[n + 1..]) + {top}
    requires s.fibers == s0.fibers - Tops(stack0[n + 1..])
    ensures s.fibers - {top} == s0.fibers - Tops(stack0[n..])
  {
  }

  /** A settled promise stays settled. */
  lemma SettledForGood(s: State, stack: Stack, step: Step, k: nat)
    requires Inv(s, stack) && Enabled(s, step) && k < |s.jobs| && s.jobs[k].Settled?
    ensures k < |Apply(s, step).jobs| && Apply(s, step).jobs[k] == s.jobs[k]
  {
    if step.SettleJob? {
      assert InControl(stack, Root(step.job));
      RootOnTop(s, stack);
    } else if !step.Drive? && !step.Start? {
      OnlyJobStepsTouchJobs(s, step);
    }
  }

  /**
   In every run from the moment a chain starts to unwind: until the job's
   promise settles the unwinding is under way, and when it settles it rejects.
   */
  lemma {:induction false} TrapReachesJob(s0: State, stack0: Stack, steps: seq<Step>)
    requires Inv(s0, stack0) && Unwinding(s0, stack0) && Exec(s0, steps).Some?
    ensures var t := Exec(s0, steps).value; var k := stack0[0].job;
            && k < |t.jobs|
            && (t.jobs[k] == Settled(false) || UnwoundTo(s0, stack0, t, MoveAll(stack0, steps)))
    decreases |steps|
  {
    var k := stack0[0].job;
    if steps == [] {
      assert stack0[|stack0|..] == [];
      assert s0.fibers - {} == s0.fibers;
    } else {
      var before, last := steps[..|steps| - 1], steps[|steps| - 1];
      var s, stack := Exec(s0, before).value, MoveAll(stack0, before);
      TrapReachesJob(s0, stack0, before);
      RunKeepsInv(s0, stack0, before);
      if s.jobs[k] == Settled(false) {
        SettledForGood(s, stack, last, k);
      } else {
        assert stack[0] == stack0[0];
        UnwindStep(s0, stack0, s, stack, last);
        JobsOnlyGrow(s, last);
      }
    }
  }

  lemma JobsOnlyGrow(s: State, step: Step)
    requires Enabled(s, step)
    ensures |Apply(s, step).jobs| >= |s.jobs|
  {
  }

  /** At the moment the job rejects, exactly the fibers of the chain are gone. */
  lemma TrapRemovesChain(s0: State, stack0: Stack, steps: seq<Step>, k: nat)
    requires Inv(s0, stack0) && Unwinding(s0, stack0) && Exec(s0, steps).Some?
    requires stack0[0] == Root(k) && Enabled(Exec(s0, steps).value, SettleJob(k))
    ensures var t := Apply(Exec(s0, steps).value, SettleJob(k));
            t.jobs[k] == Settled(false) && t.fibers == s0.fibers - Tops(stack0)
  {
    var s, stack := Exec(s0, steps).value, MoveAll(stack0, steps);
    TrapReachesJob(s0, stack0, steps);
    RunKeepsInv(s0, stack0, steps);
    assert InControl(stack, Root(k));
    assert s.jobs[k] == Started;
    UnwindStep(s0, stack0, s, stack, SettleJob(k));
    TopsOfRoot(stack0);
  }

  lemma TopsOfRoot(stack: Stack)
    requires stack != [] && stack[0].Root?
    ensures Tops(stack) == Tops(stack[1..])
  {
    var b := stack[1..];
    assert forall i | 0 <= i < |b| :: b[i] == stack[i + 1];
    forall t | t in Tops(stack) ensures t in Tops(b) {
      var i :| 0 <= i < |stack| && stack[i].Fiber? && stack[i].top == t;
      assert b[i - 1] == stack[i];
    }
  }

  /** The steps that unwind a chain whose top has trapped. */
  function UnwindSteps(stack: Stack): seq<Step>
    requires stack != []
  {
    if |stack| == 1 || Top(stack).Root? then [SettleJob(if stack[0].Root? then stack[0].job else 0)]
    else [SettleFiber(Top(stack).top), Resume(stack[|stack| - 2])] + UnwindSteps(Below(stack))
  }

  /** The unwinding can always run to its end: nobody is left hanging. */
  lemma {:induction false} TrapCompletes(s: State, stack: Stack)
    requires Inv(s, stack) && stack != [] && Is(s, Top(stack), Ended(false))
    ensures var end := Exec(s, UnwindSteps(stack));
            end.Some? && stack[0].job < |end.value.jobs| && end.value.jobs[stack[0].job] == Settled(false)
    decreases |stack|
  {
    if Top(stack).Root? {
      RootOnTop(s, stack);
      NeverStuck(s, stack);
      ExecOne(s, UnwindSteps(stack)[0]);
    } else {
      var b := UnwindOne(s, stack);
      TrapCompletes(b, Below(stack));
      var two := [SettleFiber(Top(stack).top), Resume(stack[|stack| - 2])];
      ExecConcat(s, two, UnwindSteps(Below(stack)));
    }
  }

  /** The reaction to a trapped fiber rejects its resumer, and the resumer traps in turn. */
  lemma UnwindOne(s: State, stack: Stack) returns (t: State)
    requires Inv(s, stack) && stack != [] && Top(stack).Fiber? && Is(s, Top(stack), Ended(false))
    ensures |stack| > 1 && Exec(s, [SettleFiber(Top(stack).top), Resume(stack[|stack| - 2])]) == Some(t)
    ensures Inv(t, Below(stack)) && Is(t, Top(Below(stack)), Ended(false))
  {
    var top, below := Top(stack).top, stack[|stack| - 2];
    assert InControl(stack, Fiber(top));
    NeverStuck(s, stack);
    ReturnsToLastResumer(s, stack, top, SettleFiber(top));
    var a := Apply(s, SettleFiber(top));
    StepKeepsInv(s, stack, SettleFiber(top));
    t := Apply(a, Resume(below));
    StepKeepsInv(a, Below(stack), Resume(below));
    ExecTwo(s, SettleFiber(top), Resume(below));
  }

  lemma ExecTwo(s: State, first: Step, second: Step)
    requires Enabled(s, first) && Enabled(Apply(s, first), second)
    ensures Exec(s, [first, second]) == Some(Apply(Apply(s, first), second))
  {
    ExecOne(s, first);
    ExecSnoc(s, [first], second);
    assert [first] + [second] == [first, second];
  }

  lemma ExecOne(s: State, step: Step)
    requires Enabled(s, step)
    ensures Exec(s, [step]) == Some(Apply(s, step))
  {
    assert [step][..0] == [];
    assert Exec(s, []) == Some(s);
  }

  lemma {:induction false} ExecConcat(s: State, a: seq<Step>, b: seq<Step>)
    requires Exec(s, a).Some?
    ensures Exec(s, a + b) == Exec(Exec(s, a).value, b)
    decreases |b|
  {
    if b == [] {
      assert a + b == a;
    } else {
      assert (a + b)[..|a + b| - 1] == a + b[..|b| - 1];
      ExecConcat(s, a, b[..|b| - 1]);
    }
  }
}
