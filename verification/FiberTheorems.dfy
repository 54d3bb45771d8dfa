/** What every interleaving of the fiber and job protocol keeps. */
module FiberTheorems {
  import opened Wrappers
  import opened Fibers

  /**
   The abstract machine: the chain of resumers from the root job up to the
   context in control. Entering a job pushes the root, resuming a fiber pushes
   it, suspending or ending pops.
   */
  type Stack = seq<Ctx>

  function Top(stack: Stack): Ctx
    requires stack != []
  {
    stack[|stack| - 1]
  }

  function Below(stack: Stack): Stack
    requires stack != []
  {
    stack[..|stack| - 1]
  }

  function Move(stack: Stack, step: Step): Stack {
    match step
    case Start(k) => stack + [Root(k)]
    case Switch(c, top) => if c == Fiber(top) && stack != [] then Below(stack) else stack + [Fiber(top)]
    case SettleFiber(_) => if stack != [] then Below(stack) else stack
    case SettleJob(_) => if stack != [] then Below(stack) else stack
    case _ => stack
  }

  function MoveAll(stack: Stack, steps: seq<Step>): Stack {
    if steps == [] then stack else Move(MoveAll(stack, steps[..|steps| - 1]), steps[|steps| - 1])
  }

  /** Jobs start in `drive` order, each once, and only after everything before them has settled. */
  ghost predicate Chain(jobs: seq<Job>, links: seq<bool>, startLog: seq<nat>) {
    && |links| == |jobs|
    && (forall k | 0 <= k < |jobs| :: links[k] ==> jobs[k].Settled?)
    && |startLog| <= |jobs|
    && (forall k | 0 <= k < |jobs| :: k + 1 < |startLog| ==> links[k])
    && (forall k | 0 <= k < |jobs| :: jobs[k] != Queued <==> k < |startLog|)
    && (forall k | 0 <= k < |startLog| :: startLog[k] == k)
  }

  /** The root of the stack is the one job that has started and not settled. */
  ghost predicate OneRoot(stack: Stack, jobs: seq<Job>) {
    && (stack != [] ==> stack[0].Root? && stack[0].job < |jobs| && jobs[stack[0].job] == Started)
    && (forall k | 0 <= k < |jobs| :: jobs[k] == Started ==> stack != [] && stack[0] == Root(k))
  }

  /** Each `drive` promise has the outcome of its own activation. */
  ghost predicate OwnOutcomes(jobs: seq<Job>, outcomes: map<nat, bool>) {
    forall k | 0 <= k < |jobs| && jobs[k].Settled? :: k in outcomes && outcomes[k] == jobs[k].ok
  }

  /** Every live activation is in the stack or is a suspended fiber, and every started fiber is live. */
  ghost predicate Accounted(stack: Stack, live: set<Ctx>, fibers: map<int, FiberRec>) {
    && (forall i, j | 0 <= i < j < |stack| :: stack[i] != stack[j])
    && (forall i | 0 < i < |stack| :: stack[i].Fiber? && IsStarted(fibers, stack[i].top))
    && (forall c | c in stack :: c in live)
    && (forall c | c in live :: c in stack || (c.Fiber? && IsStarted(fibers, c.top)))
    && (forall t | IsStarted(fibers, t) :: Fiber(t) in live)
    && (forall t | t in fibers && !fibers[t].started :: fibers[t].slot.None?)
  }

  predicate IsStarted(fibers: map<int, FiberRec>, t: int) {
    t in fibers && fibers[t].started
  }

  predicate InControl(stack: Stack, c: Ctx) {
    stack != [] && c == Top(stack)
  }

  /** Exactly the top of the stack is in control; every other context waits on its own switch. */
  ghost predicate Control(stack: Stack, ctxs: map<Ctx, Status>) {
    forall c | c in ctxs :: ctxs[c] != Waiting <==> InControl(stack, c)
  }

  /** Where the stack pointer belongs while `c` executes: what `c` has pushed below its own base, nothing else. */
  function Own(base: map<Ctx, int>, depth: map<Ctx, nat>, c: Ctx): int {
    if c in base && c in depth then base[c] - depth[c] else 0
  }

  /** The fiber's slot holds the context that resumed it last, with that context's own stack pointer. */
  ghost predicate ReturnsTo(s: State, top: int, c: Ctx) {
    && top in s.fibers && s.fibers[top].slot == Some(Waiter(c, Own(s.base, s.depth, c)))
    && top in s.resumer && s.resumer[top] == c
  }

  /** The fiber's slot holds the fiber itself, suspended, with its own stack pointer. */
  ghost predicate Dormant(s: State, top: int) {
    top in s.fibers && s.fibers[top].slot == Some(Waiter(Fiber(top), Own(s.base, s.depth, Fiber(top))))
  }

  /** The slots are the links of the resumer chain, plus the suspended fibers. */
  ghost predicate Slots(s: State, stack: Stack) {
    && (forall i | 0 < i < |stack| :: stack[i].Fiber? && ReturnsTo(s, stack[i].top, stack[i - 1]))
    && (forall t | IsStarted(s.fibers, t) && Fiber(t) !in stack :: Dormant(s, t))
  }

  ghost predicate Bases(live: set<Ctx>, base: map<Ctx, int>, depth: map<Ctx, nat>) {
    && (forall c | c in live :: c in base && c in depth)
    && (forall t | Fiber(t) in live :: base[Fiber(t)] == t - 16)
  }

  /** The status of the context in control agrees with the rest of the state. */
  ghost predicate ControlState(s: State, stack: Stack) {
    stack != [] ==>
      && s.sp == Own(s.base, s.depth, Top(stack))
      && Top(stack) in s.ctxs
      && var status := s.ctxs[Top(stack)];
      && (status == Ended(true) ==> Top(stack) in s.depth && s.depth[Top(stack)] == 0)
      && (status.Ended? && |stack| == 1 ==>
            stack[0].Root? && stack[0].job in s.outcomes && s.outcomes[stack[0].job] == status.ok)
      && (status.Parked? || status.Woken? ==> |stack| == 1)
      && (status.Parked? ==> s.parked == Some(stack[0]))
  }

  /** Whether the job's `block_on` is suspended but already woken. */
  predicate RootWoken(s: State, stack: Stack) {
    |stack| == 1 && Is(s, stack[0], Woken)
  }

  function Count(b: bool): nat {
    if b then 1 else 0
  }

  /** The park cell: the parked root or a pending wake, never both; and the wakes bound the polls. */
  ghost predicate ParkCell(s: State, stack: Stack) {
    && (s.parked.Some? ==> !s.wakePending && |stack| == 1 && s.parked.value == stack[0] && Is(s, stack[0], Parked))
    && (stack != [] && s.woken ==> s.wakePending || RootWoken(s, stack))
    && (stack != [] ==>
          s.polls + Count(s.wakePending) + Count(RootWoken(s, stack)) <= 1 + Count(s.stale) + s.unparks)
  }

  ghost predicate Inv(s: State, stack: Stack) {
    && Chain(s.jobs, s.links, s.startLog)
    && OneRoot(stack, s.jobs)
    && OwnOutcomes(s.jobs, s.outcomes)
    && Accounted(stack, s.ctxs.Keys, s.fibers)
    && Control(stack, s.ctxs)
    && Slots(s, stack)
    && Bases(s.ctxs.Keys, s.base, s.depth)
    && ControlState(s, stack)
    && ParkCell(s, stack)
  }

  lemma InitialInv(sp: int)
    ensures Inv(Initial(sp), [])
  {
  }

  /** Every step keeps the invariant, and moves the stack as the abstract machine does. */
  lemma StepKeepsInv(s: State, stack: Stack, step: Step)
    requires Inv(s, stack) && Enabled(s, step)
    ensures Inv(Apply(s, step), Move(stack, step))
  {
    match step
    case Setup => SetupKeeps(s, stack);
    case Drive => DriveKeeps(s, stack);
    case Start(k) => StartKeeps(s, stack, k);
    case Frames(c, d) => FramesKeep(s, stack, c, d);
    case Init(c, top) => InitKeeps(s, stack, c, top);
    case Switch(c, top) => SwitchKeeps(s, stack, c, top);
    case Return(c) => EndKeeps(s, stack, c, true);
    case Trap(c) => EndKeeps(s, stack, c, false);
    case Resume(c) => ResumeKeeps(s, stack, c);
    case SettleFiber(top) => SettleFiberKeeps(s, stack, top);
    case SettleJob(k) => SettleJobKeeps(s, stack, k);
    case Link(k) => LinkKeeps(s, stack, k);
    case Park(c) => ParkKeeps(s, stack, c);
    case Poll(c) => PollKeeps(s, stack, c);
    case Unpark => UnparkKeeps(s, stack);
  }

  lemma SetupKeeps(s: State, stack: Stack)
    requires Inv(s, stack)
    ensures Inv(Apply(s, Setup), stack)
  {
  }

  lemma DriveKeeps(s: State, stack: Stack)
    requires Inv(s, stack)
    ensures Inv(Apply(s, Drive), stack)
  {
  }

  /** The chain is resolved from the front: a resolved link has only settled jobs before it. */
  lemma {:induction false} SettledBelow(jobs: seq<Job>, links: seq<bool>, startLog: seq<nat>, k: nat, j: nat)
    requires Chain(jobs, links, startLog) && j <= k < |jobs| && links[k]
    ensures jobs[j].Settled?
  {
    assert jobs[k] != Queued && (j < k ==> links[j]);
  }

  /** When the chain lets a job start, no other root activation is in flight, and it is the next one driven. */
  lemma StartsAlone(s: State, stack: Stack, k: nat)
    requires Inv(s, stack) && Enabled(s, Start(k))
    ensures stack == [] && k == |s.startLog|
  {
    forall j | 0 <= j < k ensures s.jobs[j].Settled? {
      SettledBelow(s.jobs, s.links, s.startLog, k - 1, j);
    }
  }

  lemma StartKeeps(s: State, stack: Stack, k: nat)
    requires Inv(s, stack) && Enabled(s, Start(k))
    ensures Inv(Apply(s, Start(k)), stack + [Root(k)])
  {
    StartsAlone(s, stack, k);
    assert stack + [Root(k)] == [Root(k)];
    StartedKeeps(s, k);
  }

  lemma StartedKeeps(s: State, k: nat)
    requires Inv(s, []) && k < |s.jobs| && k == |s.startLog| && (k == 0 || s.links[k - 1])
    ensures Inv(DoStart(s, k), [Root(k)])
  {
    StartKeepsChain(s.jobs, s.links, s.startLog, k);
    AccountedEnter(s.ctxs.Keys, s.fibers, k);
    assert DoStart(s, k).ctxs.Keys == s.ctxs.Keys + {Root(k)};
    StartKeepsSlots(s, k);
  }

  lemma StartKeepsChain(jobs: seq<Job>, links: seq<bool>, startLog: seq<nat>, k: nat)
    requires Chain(jobs, links, startLog) && k < |jobs| && k == |startLog| && (k == 0 || links[k - 1])
    ensures Chain(jobs[k := Started], links, startLog + [k])
  {
  }

  lemma AccountedEnter(live: set<Ctx>, fibers: map<int, FiberRec>, k: nat)
    requires Accounted([], live, fibers)
    ensures Accounted([Root(k)], live + {Root(k)}, fibers)
  {
  }

  lemma StartKeepsSlots(s: State, k: nat)
    requires k < |s.jobs| && Slots(s, []) && Control([], s.ctxs) && Root(k) !in s.ctxs
    requires forall t | IsStarted(s.fibers, t) :: Fiber(t) in s.ctxs
    ensures Slots(DoStart(s, k), [Root(k)]) && Control([Root(k)], DoStart(s, k).ctxs)
  {
    var t := DoStart(s, k);
    forall f | IsStarted(t.fibers, f) ensures Dormant(t, f) {
      assert Dormant(s, f);
    }
  }

  /** The context in control may take and release frames of its own; the pointer follows. */
  lemma FramesKeep(s: State, stack: Stack, c: Ctx, d: nat)
    requires Inv(s, stack) && Is(s, c, Running) && c in s.depth
    ensures Inv(DoFrames(s, c, d), stack)
  {
    assert InControl(stack, c);
    FramesKeepSlots(s, stack, d, s.sp + s.depth[c] - d);
  }

  /** The frames of the context in control are nobody else's business. */
  lemma FramesKeepSlots(s: State, stack: Stack, d: nat, sp: int)
    requires stack != [] && Accounted(stack, s.ctxs.Keys, s.fibers) && Slots(s, stack)
    ensures Slots(s.(sp := sp, depth := s.depth[Top(stack) := d]), stack)
  {
    var t := s.(sp := sp, depth := s.depth[Top(stack) := d]);
    forall i | 0 < i < |stack| ensures ReturnsTo(t, stack[i].top, stack[i - 1]) {
      assert ReturnsTo(s, stack[i].top, stack[i - 1]);
    }
    forall f | IsStarted(t.fibers, f) && Fiber(f) !in stack ensures Dormant(t, f) {
      assert Dormant(s, f);
    }
  }

  lemma InitKeeps(s: State, stack: Stack, c: Ctx, top: int)
    requires Inv(s, stack) && Enabled(s, Init(c, top))
    ensures Inv(Apply(s, Init(c, top)), stack)
  {
    InitKeepsSlots(s, stack, top);
  }

  /** A record that is not started is nobody's slot. */
  lemma InitKeepsSlots(s: State, stack: Stack, top: int)
    requires Slots(s, stack) && Accounted(stack, s.ctxs.Keys, s.fibers) && !IsStarted(s.fibers, top)
    ensures Slots(DoInit(s, top), stack) && Accounted(stack, s.ctxs.Keys, DoInit(s, top).fibers)
  {
    var t := DoInit(s, top);
    assert forall f :: IsStarted(t.fibers, f) <==> IsStarted(s.fibers, f);
    forall i | 0 < i < |stack| ensures ReturnsTo(t, stack[i].top, stack[i - 1]) {
      assert IsStarted(s.fibers, stack[i].top) && ReturnsTo(s, stack[i].top, stack[i - 1]);
    }
    forall f | IsStarted(t.fibers, f) && Fiber(f) !in stack ensures Dormant(t, f) {
      assert Dormant(s, f);
    }
  }

  /** Another status for the context in control leaves the contexts, the slots and the stacks as they are. */
  lemma StatusKeeps(s: State, stack: Stack, status: Status)
    requires stack != [] && Top(stack) in s.ctxs && status != Waiting
    requires Control(stack, s.ctxs) && Slots(s, stack)
    ensures var t := s.Set(Top(stack), status);
            t.ctxs.Keys == s.ctxs.Keys && Control(stack, t.ctxs) && Slots(t, stack)
  {
    var t := s.Set(Top(stack), status);
    SameSlots(s, t, stack);
  }

  lemma SameSlots(s: State, t: State, stack: Stack)
    requires t.fibers == s.fibers && t.base == s.base && t.depth == s.depth && t.resumer == s.resumer
    requires Slots(s, stack)
    ensures Slots(t, stack)
  {
    forall i | 0 < i < |stack| ensures ReturnsTo(t, stack[i].top, stack[i - 1]) {
      assert ReturnsTo(s, stack[i].top, stack[i - 1]);
    }
    forall f | IsStarted(t.fibers, f) && Fiber(f) !in stack ensures Dormant(t, f) {
      assert Dormant(s, f);
    }
  }

  lemma EndKeeps(s: State, stack: Stack, c: Ctx, ok: bool)
    requires Inv(s, stack) && c in s.ctxs && (s.ctxs[c] == Running || s.ctxs[c] == Waking(false))
    requires ok ==> c in s.depth && s.depth[c] == 0
    ensures Inv(End(s, c, ok), stack)
  {
    assert InControl(stack, c);
    StatusKeeps(s, stack, Ended(ok));
    SameSlots(s.Set(c, Ended(ok)), End(s, c, ok), stack);
  }

  lemma ResumeKeeps(s: State, stack: Stack, c: Ctx)
    requires Inv(s, stack) && Enabled(s, Resume(c))
    ensures Inv(Apply(s, Resume(c)), stack)
  {
    assert InControl(stack, c);
    if s.ctxs[c].ok { StatusKeeps(s, stack, Running); } else { EndKeeps(s, stack, c, false); }
  }

  lemma ParkKeeps(s: State, stack: Stack, c: Ctx)
    requires Inv(s, stack) && Enabled(s, Park(c))
    ensures Inv(Apply(s, Park(c)), stack)
  {
    assert InControl(stack, c);
    RootOnTop(s, stack);
    var status := if s.wakePending then Woken else Parked;
    StatusKeeps(s, stack, status);
    SameSlots(s.Set(c, status), Apply(s, Park(c)), stack);
  }

  /** A root in control is alone on the stack. */
  lemma RootOnTop(s: State, stack: Stack)
    requires Inv(s, stack) && stack != [] && Top(stack).Root?
    ensures |stack| == 1 && stack[0] == Top(stack)
  {
  }

  lemma PollKeeps(s: State, stack: Stack, c: Ctx)
    requires Inv(s, stack) && Enabled(s, Poll(c))
    ensures Inv(Apply(s, Poll(c)), stack)
  {
    assert InControl(stack, c);
    StatusKeeps(s, stack, Running);
    SameSlots(s.Set(c, Running), Apply(s, Poll(c)), stack);
  }

  lemma UnparkKeeps(s: State, stack: Stack)
    requires Inv(s, stack) && Enabled(s, Unpark)
    ensures Inv(Apply(s, Unpark), stack)
  {
    if s.parked.Some? {
      StatusKeeps(s, stack, Woken);
      SameSlots(s.Set(s.parked.value, Woken), Apply(s, Unpark), stack);
    } else {
      SameSlots(s, Apply(s, Unpark), stack);
    }
  }

  lemma LinkKeeps(s: State, stack: Stack, k: nat)
    requires Inv(s, stack) && Enabled(s, Link(k))
    ensures Inv(Apply(s, Link(k)), stack)
  {
    SameSlots(s, Apply(s, Link(k)), stack);
  }

  lemma SettleJobKeeps(s: State, stack: Stack, k: nat)
    requires Inv(s, stack) && Enabled(s, SettleJob(k))
    ensures Inv(Apply(s, SettleJob(k)), Move(stack, SettleJob(k)))
  {
    assert InControl(stack, Root(k));
    RootOnTop(s, stack);
    assert stack == [Root(k)] && stack[..0] == [];
    SettledKeeps(s, k, s.ctxs[Root(k)].ok);
  }

  lemma SettledKeeps(s: State, k: nat, ok: bool)
    requires Inv(s, [Root(k)]) && Is(s, Root(k), Ended(ok)) && k < |s.jobs|
    ensures Inv(s.(jobs := s.jobs[k := Settled(ok)], ctxs := s.ctxs - {Root(k)}), [])
  {
    var t := s.(jobs := s.jobs[k := Settled(ok)], ctxs := s.ctxs - {Root(k)});
    assert t.ctxs.Keys == s.ctxs.Keys - {Root(k)};
    DormantAfterJob(s, t, [Root(k)]);
    SettledKeepsJobs(s, k, ok);
  }

  lemma SettledKeepsJobs(s: State, k: nat, ok: bool)
    requires Chain(s.jobs, s.links, s.startLog) && OneRoot([Root(k)], s.jobs) && OwnOutcomes(s.jobs, s.outcomes)
    requires k in s.outcomes && s.outcomes[k] == ok
    ensures var jobs := s.jobs[k := Settled(ok)];
            Chain(jobs, s.links, s.startLog) && OneRoot([], jobs) && OwnOutcomes(jobs, s.outcomes)
  {
  }

  /** With the job gone the slots hold suspended fibers only. */
  lemma DormantAfterJob(s: State, t: State, stack: Stack)
    requires Slots(s, stack) && |stack| == 1 && stack[0].Root?
    requires t.fibers == s.fibers && t.base == s.base && t.depth == s.depth
    ensures Slots(t, [])
  {
    forall f | IsStarted(t.fibers, f) ensures Dormant(t, f) {
      assert Fiber(f) !in stack && Dormant(s, f);
    }
  }

  /** A fiber leaving the top of the stack, suspended or dead, leaves the rest of the contexts accounted for. */
  lemma AccountedPop(stack: Stack, live: set<Ctx>, fibers: map<int, FiberRec>, top: int, slot: Option<Waiter>)
    requires Accounted(stack, live, fibers) && InControl(stack, Fiber(top)) && |stack| > 1
    ensures Accounted(Below(stack), live, fibers[top := FiberRec(true, slot)])
    ensures Accounted(Below(stack), live - {Fiber(top)}, fibers - {top})
  {
    assert forall c :: c in stack <==> c in Below(stack) || c == Fiber(top);
    assert Fiber(top) !in Below(stack);
    assert IsStarted(fibers, stack[|stack| - 1].top);
    LiveAfter(stack, live, fibers, top, slot);
  }

  lemma LiveAfter(stack: Stack, live: set<Ctx>, fibers: map<int, FiberRec>, top: int, slot: Option<Waiter>)
    requires Accounted(stack, live, fibers) && IsStarted(fibers, top)
    ensures forall t :: IsStarted(fibers[top := FiberRec(true, slot)], t) <==> IsStarted(fibers, t)
    ensures forall t :: IsStarted(fibers - {top}, t) <==> IsStarted(fibers, t) && t != top
  {
  }

  /** A fiber entering the top of the stack, suspended before or new. */
  lemma AccountedPush(stack: Stack, live: set<Ctx>, fibers: map<int, FiberRec>, top: int, slot: Option<Waiter>)
    requires Accounted(stack, live, fibers) && stack != [] && Fiber(top) !in stack && top in fibers
    ensures Accounted(stack + [Fiber(top)], live + {Fiber(top)}, fibers[top := FiberRec(true, slot)])
  {
    var more, after := stack + [Fiber(top)], fibers[top := FiberRec(true, slot)];
    assert forall c :: c in more <==> c in stack || c == Fiber(top);
    assert forall t :: IsStarted(after, t) <==> IsStarted(fibers, t) || t == top;
    forall i | 0 < i < |more| ensures more[i].Fiber? && IsStarted(after, more[i].top) {
      assert i < |stack| ==> IsStarted(fibers, stack[i].top);
    }
  }

  /** Control passes down to the context below the top. */
  lemma ControlPop(stack: Stack, ctxs: map<Ctx, Status>, status: Status)
    requires Control(stack, ctxs) && |stack| > 1 && status != Waiting
    requires stack[|stack| - 2] != Top(stack)
    ensures Control(Below(stack), ctxs[Top(stack) := Waiting][stack[|stack| - 2] := status])
    ensures Control(Below(stack), (ctxs - {Top(stack)})[stack[|stack| - 2] := status])
  {
  }

  /** Control passes up to a context put on top. */
  lemma ControlPush(stack: Stack, ctxs: map<Ctx, Status>, c: Ctx, status: Status)
    requires Control(stack, ctxs) && stack != [] && c != Top(stack) && status != Waiting
    ensures Control(stack + [c], ctxs[Top(stack) := Waiting][c := status])
  {
  }

  /** The slots below the top of the stack are not touched when the top leaves. */
  lemma SlotsPop(s: State, t: State, stack: Stack, top: int)
    requires Slots(s, stack) && InControl(stack, Fiber(top)) && |stack| > 1 && Fiber(top) !in Below(stack)
    requires t.base == s.base && t.depth == s.depth && t.resumer == s.resumer
    requires forall f | f != top :: (f in t.fibers <==> f in s.fibers) && (f in s.fibers ==> t.fibers[f] == s.fibers[f])
    requires IsStarted(t.fibers, top) ==> Dormant(t, top)
    ensures Slots(t, Below(stack))
  {
    var rest := Below(stack);
    forall i | 0 < i < |rest| ensures rest[i].Fiber? && ReturnsTo(t, rest[i].top, rest[i - 1]) {
      assert rest[i] == stack[i] && rest[i] in rest;
      assert ReturnsTo(s, stack[i].top, stack[i - 1]);
    }
    forall f | IsStarted(t.fibers, f) && Fiber(f) !in rest ensures Dormant(t, f) {
      if f != top { assert Fiber(f) !in stack && Dormant(s, f); }
    }
  }

  /** The slots of the chain are not touched when a fiber is put on top of it. */
  lemma SlotsPush(s: State, t: State, stack: Stack, top: int)
    requires Slots(s, stack) && stack != [] && Fiber(top) !in stack
    requires forall c | c != Fiber(top) :: Own(t.base, t.depth, c) == Own(s.base, s.depth, c)
    requires forall f | f != top && f in s.resumer :: f in t.resumer && t.resumer[f] == s.resumer[f]
    requires forall f | f != top :: (f in t.fibers <==> f in s.fibers) && (f in s.fibers ==> t.fibers[f] == s.fibers[f])
    requires ReturnsTo(t, top, Top(stack))
    ensures Slots(t, stack + [Fiber(top)])
  {
    var more := stack + [Fiber(top)];
    forall i | 0 < i < |more| ensures more[i].Fiber? && ReturnsTo(t, more[i].top, more[i - 1]) {
      if i < |stack| {
        assert stack[i] in stack && stack[i - 1] in stack;
        assert ReturnsTo(s, stack[i].top, stack[i - 1]);
      }
    }
    forall f | IsStarted(t.fibers, f) && Fiber(f) !in more ensures Dormant(t, f) {
      assert Fiber(top) in more;
      assert Fiber(f) !in stack by { assert forall c | c in stack :: c in more; }
      assert Dormant(s, f);
    }
  }

  lemma SettleFiberKeeps(s: State, stack: Stack, top: int)
    requires Inv(s, stack) && Enabled(s, SettleFiber(top))
    ensures Inv(Apply(s, SettleFiber(top)), Move(stack, SettleFiber(top)))
  {
    assert InControl(stack, Fiber(top));
    var t := Apply(s, SettleFiber(top));
    var below := stack[|stack| - 2];
    assert ReturnsTo(s, top, below);
    AccountedPop(stack, s.ctxs.Keys, s.fibers, top, None);
    ControlPop(stack, s.ctxs, Waking(s.ctxs[Fiber(top)].ok));
    assert t.ctxs.Keys == s.ctxs.Keys - {Fiber(top)};
    SlotsPop(s, t, stack, top);
  }

  lemma SwitchKeeps(s: State, stack: Stack, c: Ctx, top: int)
    requires Inv(s, stack) && Enabled(s, Switch(c, top))
    ensures Inv(Apply(s, Switch(c, top)), Move(stack, Switch(c, top)))
  {
    assert InControl(stack, c);
    if c == Fiber(top) {
      SuspendKeeps(s, stack, top);
    } else if s.fibers[top].started {
      ReenterKeeps(s, stack, top);
    } else {
      EnterKeeps(s, stack, top);
    }
  }

  /** From inside a fiber: it is suspended in its own slot and its last resumer is woken. */
  lemma SuspendKeeps(s: State, stack: Stack, top: int)
    requires Inv(s, stack) && Enabled(s, Switch(Fiber(top), top))
    ensures Inv(Apply(s, Switch(Fiber(top), top)), stack[..|stack| - 1])
  {
    assert InControl(stack, Fiber(top));
    var t := Apply(s, Switch(Fiber(top), top));
    var below := stack[|stack| - 2];
    assert ReturnsTo(s, top, below);
    AccountedPop(stack, s.ctxs.Keys, s.fibers, top, t.fibers[top].slot);
    ControlPop(stack, s.ctxs, Waking(true));
    assert t.ctxs.Keys == s.ctxs.Keys;
    SlotsPop(s, t, stack, top);
  }

  /** To a suspended fiber: the caller takes its place in the slot. */
  lemma ReenterKeeps(s: State, stack: Stack, top: int)
    requires Inv(s, stack) && stack != [] && Top(stack) != Fiber(top)
    requires Enabled(s, Switch(Top(stack), top)) && s.fibers[top].started
    ensures Inv(Apply(s, Switch(Top(stack), top)), stack + [Fiber(top)])
  {
    var t := Apply(s, Switch(Top(stack), top));
    NotInChain(s, stack, top);
    assert Dormant(s, top);
    AccountedPush(stack, s.ctxs.Keys, s.fibers, top, t.fibers[top].slot);
    ControlPush(stack, s.ctxs, Fiber(top), Waking(true));
    assert t.ctxs.Keys == s.ctxs.Keys + {Fiber(top)};
    SlotsPush(s, t, stack, top);
  }

  /** A fiber parked in its own slot is not in the resumer chain. */
  lemma NotInChain(s: State, stack: Stack, top: int)
    requires Inv(s, stack) && IsStarted(s.fibers, top)
    requires s.fibers[top].slot.Some? && s.fibers[top].slot.value.ctx == Fiber(top)
    ensures Fiber(top) !in stack
  {
    forall i | 0 <= i < |stack| ensures stack[i] != Fiber(top) {
      if i > 0 { assert ReturnsTo(s, stack[i].top, stack[i - 1]) && stack[i - 1] != stack[i]; }
    }
  }

  lemma UnstartedNotInChain(s: State, stack: Stack, top: int)
    requires Inv(s, stack) && top in s.fibers && !s.fibers[top].started
    ensures Fiber(top) !in stack
  {
    forall i | 0 <= i < |stack| ensures stack[i] != Fiber(top) {
      if i > 0 { assert IsStarted(s.fibers, stack[i].top); }
    }
  }

  /** To a fiber that has not run yet: its activation begins on its own stack. */
  lemma EnterKeeps(s: State, stack: Stack, top: int)
    requires Inv(s, stack) && stack != [] && Top(stack) != Fiber(top)
    requires Enabled(s, Switch(Top(stack), top)) && !s.fibers[top].started
    ensures Inv(Apply(s, Switch(Top(stack), top)), stack + [Fiber(top)])
  {
    var t := Apply(s, Switch(Top(stack), top));
    UnstartedNotInChain(s, stack, top);
    EnteredContexts(s, stack, top);
    EnteredSlots(s, stack, top);
    assert Own(t.base, t.depth, Fiber(top)) == t.sp;
  }

  lemma EnteredContexts(s: State, stack: Stack, top: int)
    requires Accounted(stack, s.ctxs.Keys, s.fibers) && Control(stack, s.ctxs) && Bases(s.ctxs.Keys, s.base, s.depth)
    requires stack != [] && Top(stack) != Fiber(top) && Fiber(top) !in stack
    requires Enabled(s, Switch(Top(stack), top)) && !s.fibers[top].started
    ensures var t, more := DoSwitch(s, Top(stack), top), stack + [Fiber(top)];
            && Accounted(more, t.ctxs.Keys, t.fibers) && Control(more, t.ctxs) && Bases(t.ctxs.Keys, t.base, t.depth)
  {
    var t := DoSwitch(s, Top(stack), top);
    AccountedPush(stack, s.ctxs.Keys, s.fibers, top, t.fibers[top].slot);
    ControlPush(stack, s.ctxs, Fiber(top), Running);
    assert t.ctxs.Keys == s.ctxs.Keys + {Fiber(top)};
  }

  lemma EnteredSlots(s: State, stack: Stack, top: int)
    requires Slots(s, stack) && ControlState(s, stack)
    requires stack != [] && Top(stack) != Fiber(top) && Fiber(top) !in stack
    requires Enabled(s, Switch(Top(stack), top)) && !s.fibers[top].started
    ensures Slots(DoSwitch(s, Top(stack), top), stack + [Fiber(top)])
  {
    SlotsPush(s, DoSwitch(s, Top(stack), top), stack, top);
  }
}
