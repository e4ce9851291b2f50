/** Every Shutdown call returns, wherever it is, on a run that is fair to it; and there are such
    runs. */
module InformerLiveness {
  import opened Options
  import opened InformerProtocol
  import opened InformerSafety
  import opened InformerRuns

  // ----- fairness of the lock

  /** In front of Lock. */
  predicate Entering(pc: Pc) {
    pc.StartEnter? || pc.ShutdownEnter? || pc.ForEnter? || pc.SyncEnter?
  }

  ghost predicate Moves(ws: States, n: nat, t: Thread) {
    exists m: nat :: n <= m && PcOf(ws(m), t) != PcOf(ws(n), t)
  }

  ghost predicate FreeAfter(ws: States, n: nat) {
    exists m: nat :: n <= m && ws(m).lock == None
  }

  /** A thread inside a critical section takes its next step some time. */
  ghost predicate SectionsProgress(ws: States) {
    forall n: nat, t: Thread :: Holding(PcOf(ws(n), t)) ==> Moves(ws, n, t)
  }

  /** A thread in front of the lock gets it some time, if the lock is free again and again. */
  ghost predicate LockFair(ws: States) {
    forall n: nat, t: Thread ::
      Entering(PcOf(ws(n), t)) && (forall m: nat :: n <= m ==> FreeAfter(ws, m)) ==> Moves(ws, n, t)
  }

  ghost predicate Fair(ws: States) {
    && Scheduled(ws) && StopsClose(ws) && RunHonoursStop(ws) && WaitLetThrough(ws)
    && SectionsProgress(ws) && LockFair(ws)
  }

  // ----- critical sections end

  /** How far a thread is from its Unlock: a stage, and within the loops what is left to do. */
  function Stage(pc: Pc): nat {
    if pc.StartCheck? || pc.ForLookup? then 3
    else if pc.StartExit? || pc.ShutdownExit? || pc.ForExit? || pc.SyncExit? then 1
    else 2
  }

  function Left(pc: Pc): nat {
    match pc
    case StartLoop(_, todo) => 3 * |todo|
    case StartAdded(_, todo, _) => 3 * |todo| + 2
    case StartLaunched(_, todo, _) => 3 * |todo| + 1
    case SyncScan(todo, _, _) => |todo|
    case _ => 0
  }

  ghost predicate Nearer(pc: Pc, pc': Pc) {
    Stage(pc') < Stage(pc) || (Stage(pc') == Stage(pc) && Left(pc') < Left(pc))
  }

  lemma LoopStep(w: World, pc: Pc, op: Op)
    requires EnabledOp(w, pc, op) && (op.Visit? || op.Scan?)
    ensures Nearer(pc, NextPc(w, pc, op))
  {
    var todo := pc.todo - {op.kind};
    assert |todo| == |pc.todo| - 1;
  }

  lemma SectionStep(w: World, pc: Pc, op: Op)
    requires EnabledOp(w, pc, op) && Holding(pc) && !op.Unlock?
    ensures Holding(NextPc(w, pc, op)) && Nearer(pc, NextPc(w, pc, op))
  {
    OpShape(w, pc, op);
    hide Holding;
    if op.Visit? || op.Scan? {
      LoopStep(w, pc, op);
      hide NextPc, Nearer;
    } else {
      PlainStep(w, pc, op);
      hide NextPc, Nearer;
    }
  }

  lemma PlainStep(w: World, pc: Pc, op: Op)
    requires EnabledOp(w, pc, op) && Holding(pc) && !op.Unlock? && !op.Visit? && !op.Scan?
    ensures Nearer(pc, NextPc(w, pc, op))
  {}

  /** The step at which a thread moves on is its own. */
  lemma OwnMove(w: World, e: Event, t: Thread) returns (op: Op)
    requires Enabled(w, e) && PcOf(Do(w, e), t) != PcOf(w, t)
    ensures e == By(t, op) && EnabledOp(w, PcOf(w, t), op)
    ensures PcOf(Do(w, e), t) == NextPc(w, PcOf(w, t), op)
    ensures op.Unlock? ==> Do(w, e).lock == None
  {
    op := e.op;
  }

  lemma {:induction false} FirstMove(ws: States, es: Events, n: nat, m: nat, t: Thread) returns (j: nat, op: Op)
    requires IsRun(ws, es) && n <= m && PcOf(ws(m), t) != PcOf(ws(n), t)
    ensures n <= j < m && PcOf(ws(j), t) == PcOf(ws(n), t)
    ensures EnabledOp(ws(j), PcOf(ws(j), t), op) && PcOf(ws(j + 1), t) == NextPc(ws(j), PcOf(ws(j), t), op)
    ensures op.Unlock? ==> ws(j + 1).lock == None
    decreases m
  {
    hide IsRun, Enabled, Do, NextPc, EnabledOp;
    RunStep(ws, es, m - 1);
    if PcOf(ws(m - 1), t) == PcOf(ws(n), t) {
      j := m - 1;
      op := OwnMove(ws(j), es(j), t);
    } else {
      j, op := FirstMove(ws, es, n, m - 1, t);
    }
  }

  lemma {:induction false} SectionEnds(ws: States, es: Events, n: nat, t: Thread)
    requires IsRun(ws, es) && SectionsProgress(ws) && Holding(PcOf(ws(n), t))
    ensures FreeAfter(ws, n)
    decreases Stage(PcOf(ws(n), t)), Left(PcOf(ws(n), t))
  {
    hide IsRun, NextPc, EnabledOp, Holding, Stage, Left;
    assert Moves(ws, n, t);
    var m: nat :| n <= m && PcOf(ws(m), t) != PcOf(ws(n), t);
    var j, op := FirstMove(ws, es, n, m, t);
    if !op.Unlock? {
      SectionStep(ws(j), PcOf(ws(j), t), op);
      SectionEnds(ws, es, j + 1, t);
      var l: nat :| j + 1 <= l && ws(l).lock == None;
    }
  }

  lemma FreeAgain(ws: States, es: Events, n: nat)
    requires IsRun(ws, es) && SectionsProgress(ws)
    ensures FreeAfter(ws, n)
  {
    AlwaysInv(ws, es, n);
    hide IsRun, Holding;
    if ws(n).lock.Some? {
      SectionEnds(ws, es, n, ws(n).lock.value);
    }
  }

  // ----- Shutdown

  predicate InShutdown(pc: Pc) {
    pc.ShutdownEnter? || pc.ShutdownFlag? || pc.ShutdownExit? || pc.ShutdownWait?
  }

  /** Where a Shutdown call goes next. */
  function Onward(pc: Pc): Pc {
    match pc
    case ShutdownEnter => ShutdownFlag
    case ShutdownFlag => ShutdownExit
    case _ => ShutdownWait
  }

  lemma ShutdownStep(w: World, pc: Pc, op: Op)
    requires EnabledOp(w, pc, op) && InShutdown(pc) && !pc.ShutdownWait?
    ensures NextPc(w, pc, op) == Onward(pc)
  {}

  /** A Shutdown call in front of its wait moves towards it. */
  lemma ShutdownAdvances(ws: States, es: Events, n: nat, t: Thread) returns (k: nat)
    requires IsRun(ws, es) && SectionsProgress(ws) && LockFair(ws)
    requires InShutdown(PcOf(ws(n), t)) && !PcOf(ws(n), t).ShutdownWait?
    ensures n < k && PcOf(ws(k), t) == Onward(PcOf(ws(n), t))
  {
    hide IsRun, FreeAfter, NextPc, EnabledOp, Moves, Onward;
    forall m: nat | n <= m
      ensures FreeAfter(ws, m)
    {
      FreeAgain(ws, es, m);
    }
    assert Moves(ws, n, t);
    var m := Later(ws, n, t);
    hide SectionsProgress, LockFair;
    var j, op := FirstMove(ws, es, n, m, t);
    ShutdownStep(ws(j), PcOf(ws(j), t), op);
    k := j + 1;
  }

  lemma Later(ws: States, n: nat, t: Thread) returns (m: nat)
    requires Moves(ws, n, t)
    ensures n <= m && PcOf(ws(m), t) != PcOf(ws(n), t)
  {
    m :| n <= m && PcOf(ws(m), t) != PcOf(ws(n), t);
  }

  /** On a fair run every Shutdown call returns, whether it is in front of the lock, holds it, or
      waits. */
  lemma {:induction false} ShutdownReturns(ws: States, es: Events, n: nat, t: Thread) returns (k: nat)
    requires IsRun(ws, es) && Fair(ws) && InShutdown(PcOf(ws(n), t))
    ensures n <= k && PcOf(ws(k), t).ShutdownReturned?
    decreases if PcOf(ws(n), t).ShutdownEnter? then 3
              else if PcOf(ws(n), t).ShutdownFlag? then 2
              else if PcOf(ws(n), t).ShutdownExit? then 1 else 0
  {
    hide IsRun, Scheduled, StopsClose, RunHonoursStop, WaitLetThrough, SectionsProgress, LockFair;
    if PcOf(ws(n), t).ShutdownWait? {
      k := WaitingShutdownReturns(ws, es, n, t);
    } else {
      var m := ShutdownAdvances(ws, es, n, t);
      k := ShutdownReturns(ws, es, m, t);
    }
  }

  // ----- a fair run

  const KIND: Kind := "kamelets"
  const INFORMER: Informer := 7
  const STOP: Channel := 1

  /** One thread registers an informer, starts it and shuts down; its goroutine runs until the
      stop channel is closed. */
  function EventAt(n: nat): Event {
    if n < 5 then
      By(0, [BeginFor(KIND), Lock, Lookup, Create(INFORMER), Unlock][n])
    else if n < 13 then
      By(0, [BeginStart(STOP), Lock, CheckFlag, Visit(KIND), Launch, Mark, EndLoop, Unlock][n - 5])
    else if n == 13 then GoRun(0)
    else if n < 18 then By(0, [BeginShutdown, Lock, SetFlag, Unlock][n - 14])
    else if n == 19 then GoReturn(0)
    else if n == 20 then GoDone(0)
    else if n == 21 then By(0, WaitReturns)
    else Close(STOP)
  }

  function PcAt(n: nat): Pc {
    if n < 6 then
      [Idle, ForEnter(KIND), ForLookup(KIND), ForNew(KIND), ForExit(KIND, INFORMER), ForReturned(KIND, INFORMER)][n]
    else if n < 14 then
      [StartEnter(STOP), StartCheck(STOP), StartLoop(STOP, {KIND}), StartAdded(STOP, {}, KIND),
       StartLaunched(STOP, {}, KIND), StartLoop(STOP, {}), StartExit(true), Idle][n - 6]
    else if n < 18 then [Idle, ShutdownEnter, ShutdownFlag, ShutdownExit][n - 14]
    else if n < 22 then ShutdownWait
    else ShutdownReturned
  }

  function PhaseAt(n: nat): Phase {
    if n < 14 then Spawned else if n < 20 then Running else if n == 20 then Returned else Done
  }

  function WorldAt(n: nat): World {
    World(
      if n < 4 then map[] else map[KIND := INFORMER],
      if n < 11 then {} else {KIND},
      if 9 <= n < 21 then 1 else 0,
      n >= 17,
      if 2 <= n < 5 || 7 <= n < 13 || 16 <= n < 18 then Some(0) else None,
      if n == 0 then map[] else map[0 := PcAt(n)],
      if n < 10 then [] else [Goroutine(KIND, INFORMER, STOP, PhaseAt(n))],
      if n < 4 then [] else [KIND],
      if n < 19 then {} else {STOP})
  }

  lemma EarlyStartStepAt(n: nat)
    requires 5 <= n < 9
    ensures Enabled(WorldAt(n), EventAt(n)) && WorldAt(n + 1) == Do(WorldAt(n), EventAt(n))
  {
    assert map[KIND := INFORMER].Keys == {KIND} && {KIND} - {KIND} == {};
  }

  lemma LateStartStepAt(n: nat)
    requires 9 <= n < 13
    ensures Enabled(WorldAt(n), EventAt(n)) && WorldAt(n + 1) == Do(WorldAt(n), EventAt(n))
  {}

  lemma ForStepAt(n: nat)
    requires n < 5
    ensures Enabled(WorldAt(n), EventAt(n)) && WorldAt(n + 1) == Do(WorldAt(n), EventAt(n))
  {}

  lemma LateStepAt(n: nat)
    requires 13 <= n
    ensures Enabled(WorldAt(n), EventAt(n)) && WorldAt(n + 1) == Do(WorldAt(n), EventAt(n))
  {
    if n < 18 {
    }
  }

  lemma StepAt(n: nat)
    ensures Enabled(WorldAt(n), EventAt(n)) && WorldAt(n + 1) == Do(WorldAt(n), EventAt(n))
  {
    hide WorldAt, EventAt, Enabled, Do;
    if n < 5 {
      ForStepAt(n);
    } else if n < 9 {
      EarlyStartStepAt(n);
    } else if n < 13 {
      LateStartStepAt(n);
    } else {
      LateStepAt(n);
    }
  }

  /** From step 22 on nothing moves. */
  lemma Settled(n: nat)
    requires n >= 22
    ensures WorldAt(n).goroutines == [Goroutine(KIND, INFORMER, STOP, Done)] && STOP in WorldAt(n).closed
    ensures WorldAt(n).lock == None
    ensures forall t: Thread :: PcOf(WorldAt(n), t) == if t == 0 then ShutdownReturned else Idle
  {}

  lemma GoroutinesOfRun(n: nat)
    ensures |WorldAt(n).goroutines| <= 1
    ensures forall i :: 0 <= i < |WorldAt(n).goroutines| ==> WorldAt(n).goroutines[i].stop == STOP
  {}

  lemma GoroutineEnds(n: nat, i: nat)
    requires i < |WorldAt(n).goroutines|
    ensures i < |WorldAt(n + 22).goroutines| && WorldAt(n + 22).goroutines[i].phase == Done
    ensures WorldAt(n).goroutines[i].stop in WorldAt(n + 22).closed
  {
    hide WorldAt;
    GoroutinesOfRun(n);
    Settled(n + 22);
  }

  lemma GoroutinesAreScheduled()
    ensures Scheduled(WorldAt)
  {
    hide WorldAt;
    forall n: nat, i: nat | i < |WorldAt(n).goroutines| && WorldAt(n).goroutines[i].phase in {Spawned, Returned}
      ensures exists m: nat ::
                && n <= m && i < |WorldAt(m).goroutines|
                && WorldAt(m).goroutines[i].phase != WorldAt(n).goroutines[i].phase
    {
      GoroutineEnds(n, i);
      var m := n + 22;
      assert n <= m && i < |WorldAt(m).goroutines|;
    }
  }

  lemma GoroutinesAreStopped()
    ensures StopsClose(WorldAt) && RunHonoursStop(WorldAt)
  {
    hide WorldAt;
    forall n: nat, i: nat | i < |WorldAt(n).goroutines| && WorldAt(n).goroutines[i].stop == STOP
      ensures exists m: nat :: n <= m && WorldAt(n).goroutines[i].stop in WorldAt(m).closed
    {
      GoroutineEnds(n, i);
      var m := n + 22;
      assert n <= m && WorldAt(n).goroutines[i].stop in WorldAt(m).closed;
    }
    forall n: nat
      ensures forall i :: 0 <= i < |WorldAt(n).goroutines| ==> WorldAt(n).goroutines[i].stop == STOP
    {
      GoroutinesOfRun(n);
    }
    forall n: nat, i: nat |
        i < |WorldAt(n).goroutines| && WorldAt(n).goroutines[i].phase == Running
        && WorldAt(n).goroutines[i].stop in WorldAt(n).closed
      ensures exists m: nat :: n <= m && i < |WorldAt(m).goroutines| && WorldAt(m).goroutines[i].phase != Running
    {
      GoroutineEnds(n, i);
      var m := n + 22;
      assert n <= m && i < |WorldAt(m).goroutines|;
    }
  }

  lemma ThreadEnds(n: nat, t: Thread)
    ensures Free(PcOf(WorldAt(n + 22), t))
    ensures !Free(PcOf(WorldAt(n), t)) ==> Moves(WorldAt, n, t)
  {
    hide WorldAt;
    Settled(n + 22);
    var m := n + 22;
    assert n <= m && Free(PcOf(WorldAt(m), t));
  }

  lemma ThreadsAreServed()
    ensures WaitLetThrough(WorldAt) && SectionsProgress(WorldAt) && LockFair(WorldAt)
  {
    hide WorldAt;
    forall n: nat, t: Thread | !Free(PcOf(WorldAt(n), t))
      ensures Moves(WorldAt, n, t)
    {
      ThreadEnds(n, t);
    }
    hide Moves;
    forall n: nat, t: Thread | PcOf(WorldAt(n), t).ShutdownWait?
      ensures exists m: nat :: n <= m && !PcOf(WorldAt(m), t).ShutdownWait?
    {
      ThreadEnds(n, t);
      var m := n + 22;
      assert n <= m && !PcOf(WorldAt(m), t).ShutdownWait?;
    }
  }

  /** The run is fair, launches a goroutine, and has a Shutdown call that returns. */
  lemma FairRunExists()
    ensures IsRun(WorldAt, EventAt) && Fair(WorldAt)
    ensures |WorldAt(10).goroutines| == 1 && InShutdown(PcOf(WorldAt(15), 0))
    ensures PcOf(WorldAt(22), 0).ShutdownReturned?
  {
    assert Init(WorldAt(0)) && |WorldAt(10).goroutines| == 1;
    assert InShutdown(PcOf(WorldAt(15), 0)) && PcOf(WorldAt(22), 0).ShutdownReturned?;
    GoroutinesAreScheduled();
    GoroutinesAreStopped();
    ThreadsAreServed();
    hide WorldAt, EventAt, Scheduled, StopsClose, RunHonoursStop, WaitLetThrough, SectionsProgress, LockFair, Init, Do,
      Enabled;
    forall n: nat
      ensures Enabled(WorldAt(n), EventAt(n)) && WorldAt(n + 1) == Do(WorldAt(n), EventAt(n))
    {
      StepAt(n);
    }
  }
}
