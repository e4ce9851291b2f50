/** Guarantees of the shared informer factory over whole runs. A run is infinite; a finite one
    can always be continued, since a channel may be closed at any time. */
module InformerRuns {
  import opened Options
  import opened InformerProtocol
  import opened InformerSafety

  type States = nat -> World
  type Events = nat -> Event

  ghost predicate IsRun(ws: States, es: Events) {
    && Init(ws(0))
    && forall i: nat :: Enabled(ws(i), es(i)) && ws(i + 1) == Do(ws(i), es(i))
  }

  lemma RunStep(ws: States, es: Events, n: nat)
    requires IsRun(ws, es)
    ensures Enabled(ws(n), es(n)) && ws(n + 1) == Do(ws(n), es(n))
  {}

  lemma {:induction false} AlwaysInv(ws: States, es: Events, n: nat)
    requires IsRun(ws, es)
    ensures Inv(ws(n))
  {
    if n == 0 {
      StartIsInv(ws(0));
    } else {
      AlwaysInv(ws, es, n - 1);
      RunStep(ws, es, n - 1);
      hide IsRun, Inv, Do, Enabled;
      InvStep(ws(n - 1), es(n - 1));
    }
  }

  lemma StartIsInv(w: World)
    requires Init(w)
    ensures Inv(w)
  {}

  // ----- registration

  /** What is registered or started in the one state still is in the other. */
  ghost predicate StillRegistered(w: World, w': World) {
    && w.started <= w'.started
    && forall k :: k in w.informers ==> k in w'.informers && w'.informers[k] == w.informers[k]
  }

  lemma RegisteredStep(w: World, e: Event)
    requires Inv(w) && Enabled(w, e)
    ensures StillRegistered(w, Do(w, e))
  {
    if e.By? {
      assert ThreadInv(w.informers, w.started, PcOf(w, e.t));
      hide ThreadInv, RegistryInv, EnabledOp, Effect, NextPc;
      RegistryStep(w, e.t, PcOf(w, e.t), e.op);
    }
  }

  lemma {:induction false} RegisteredForever(ws: States, es: Events, m: nat, n: nat)
    requires IsRun(ws, es) && m <= n
    ensures StillRegistered(ws(m), ws(n))
    decreases n
  {
    hide IsRun, Inv, Do, Enabled;
    if m < n {
      RegisteredForever(ws, es, m, n - 1);
      AlwaysInv(ws, es, n - 1);
      RunStep(ws, es, n - 1);
      RegisteredStep(ws(n - 1), es(n - 1));
    }
  }

  lemma ReturnedIsRegistered(w: World, t: Thread)
    requires Inv(w) && PcOf(w, t).ForReturned?
    ensures PcOf(w, t).kind in w.informers && w.informers[PcOf(w, t).kind] == PcOf(w, t).informer
  {
    hide OnePerKind, RegistryInv, LockInv, FlagInv;
    assert ThreadInv(w.informers, w.started, PcOf(w, t));
  }

  /** All lookups of one kind, by any threads at any times, return one informer. */
  lemma OneInformerPerKind(ws: States, es: Events, m: nat, t: Thread, n: nat, u: Thread)
    requires IsRun(ws, es)
    requires PcOf(ws(m), t).ForReturned? && PcOf(ws(n), u).ForReturned?
    requires PcOf(ws(m), t).kind == PcOf(ws(n), u).kind
    ensures PcOf(ws(m), t).informer == PcOf(ws(n), u).informer
  {
    hide IsRun, Inv, PcOf;
    AlwaysInv(ws, es, m);
    AlwaysInv(ws, es, n);
    ReturnedIsRegistered(ws(m), t);
    ReturnedIsRegistered(ws(n), u);
    if m <= n {
      RegisteredForever(ws, es, m, n);
    } else {
      RegisteredForever(ws, es, n, m);
    }
  }

  /** newFunc runs at most once for a kind, and the informer of a kind is run at most once. */
  lemma CreatedAndRunOnce(ws: States, es: Events, n: nat)
    requires IsRun(ws, es)
    ensures forall i, j :: 0 <= i < j < |ws(n).created| ==> ws(n).created[i] != ws(n).created[j]
    ensures forall i, j :: 0 <= i < j < |ws(n).goroutines| ==> ws(n).goroutines[i].kind != ws(n).goroutines[j].kind
    ensures forall i :: 0 <= i < |ws(n).goroutines| ==>
              var g := ws(n).goroutines[i];
              g.kind in ws(n).informers && g.informer == ws(n).informers[g.kind]
    ensures ws(n).started <= ws(n).informers.Keys
    ensures forall k :: k in ws(n).started ==>
              exists i :: 0 <= i < |ws(n).goroutines| && ws(n).goroutines[i].kind == k
  {
    AlwaysInv(ws, es, n);
  }

  /** A Start call that was not turned away leaves with everything registered started. */
  lemma StartStartsAll(ws: States, es: Events, n: nat, t: Thread)
    requires IsRun(ws, es) && PcOf(ws(n), t) == StartExit(true)
    ensures ws(n).started == ws(n).informers.Keys
  {
    AlwaysInv(ws, es, n);
    assert ThreadInv(ws(n).informers, ws(n).started, PcOf(ws(n), t));
  }

  function SeenBy(pc: Pc): Option<set<Kind>> {
    match pc
    case SyncScan(_, seen, _) => Some(seen)
    case SyncExit(seen, _) => Some(seen)
    case SyncPoll(_, seen, _, _) => Some(seen)
    case SyncReturned(seen, _) => Some(seen)
    case _ => None
  }

  lemma {:induction false} SnapshotTaken(ws: States, es: Events, n: nat, t: Thread) returns (m: nat)
    requires IsRun(ws, es) && SeenBy(PcOf(ws(n), t)).Some?
    ensures m <= n && Some(ws(m).started) == SeenBy(PcOf(ws(n), t)) && ws(m).lock == Some(t)
  {
    var w, e := ws(n - 1), es(n - 1);
    assert ws(n - 1 + 1) == Do(w, e);
    if SeenBy(PcOf(w, t)) == SeenBy(PcOf(ws(n), t)) {
      m := SnapshotTaken(ws, es, n - 1, t);
    } else {
      assert e == By(t, Lock);
      m := n;
    }
  }

  /** WaitForCacheSync answers for exactly the kinds that were started at one moment at which
      it held the lock. */
  lemma SyncReportsStarted(ws: States, es: Events, n: nat, t: Thread) returns (m: nat)
    requires IsRun(ws, es) && PcOf(ws(n), t).SyncReturned?
    ensures m <= n && PcOf(ws(n), t).result.Keys == ws(m).started && ws(m).lock == Some(t)
  {
    AlwaysInv(ws, es, n);
    assert ThreadInv(ws(n).informers, ws(n).started, PcOf(ws(n), t));
    m := SnapshotTaken(ws, es, n, t);
  }

  // ----- shutdown

  /** Once the flag is set no step adds to the WaitGroup or launches a goroutine, and the
      number of unfinished goroutines falls by one with each Done and never rises. */
  lemma AfterFlagStep(w: World, e: Event)
    requires Inv(w) && Enabled(w, e) && w.shuttingDown
    ensures var w' := Do(w, e);
            && w'.shuttingDown
            && !Launches(e)
            && w.wg == Unfinished(w.goroutines) && w'.wg == Unfinished(w'.goroutines)
            && w'.wg == (if e.GoDone? then w.wg - 1 else w.wg)
  {
    InvStep(w, e);
    NothingPending(w);
    if e.By? {
      FlaggedOp(w, e.t, e.op);
    }
    hide Inv, EnabledOp, NextPc, Effect, Unfinished;
    NothingPending(Do(w, e));
  }

  lemma NothingPending(w: World)
    requires Inv(w) && w.shuttingDown
    ensures w.wg == Unfinished(w.goroutines)
  {
    hide OnePerKind, RegistryInv, ThreadInv;
    assert w.lock.Some? ==> !Starting(PcOf(w, w.lock.value));
  }

  /** What a statement of a thread does once the flag is set. */
  lemma FlaggedOp(w: World, t: Thread, op: Op)
    requires Inv(w) && EnabledOp(w, PcOf(w, t), op) && w.shuttingDown
    ensures var w' := Do(w, By(t, op));
            w'.shuttingDown && !op.Launch? && w'.wg == w.wg
  {
    assert !Starting(PcOf(w, t));
    OpShape(w, PcOf(w, t), op);
    OpEffect(w, t, PcOf(w, t), op);
    assert op.Visit? ==> Starting(PcOf(w, t));
    hide NextPc, EnabledOp, Effect, Inv;
  }

  lemma {:induction false} AfterFlag(ws: States, es: Events, m: nat, n: nat)
    requires IsRun(ws, es) && m <= n && ws(m).shuttingDown
    ensures ws(n).shuttingDown && |ws(n).goroutines| == |ws(m).goroutines|
    ensures ws(n).wg == Unfinished(ws(n).goroutines) <= Unfinished(ws(m).goroutines)
    decreases n
  {
    AlwaysInv(ws, es, n);
    if m == n {
      assert ws(n).lock.Some? ==> !Starting(PcOf(ws(n), ws(n).lock.value));
    } else {
      AfterFlag(ws, es, m, n - 1);
      AlwaysInv(ws, es, n - 1);
      assert ws(n - 1 + 1) == Do(ws(n - 1), es(n - 1));
      AfterFlagStep(ws(n - 1), es(n - 1));
      GoroutinesGrow(ws(n - 1), es(n - 1));
    }
  }

  /** When a Shutdown call has returned, every goroutine that was ever launched has called
      Done, at that moment and for ever after, and no further one is launched. */
  lemma ShutdownIsFinal(ws: States, es: Events, m: nat, t: Thread, n: nat)
    requires IsRun(ws, es) && m <= n && PcOf(ws(m), t).ShutdownReturned?
    ensures |ws(n).goroutines| == |ws(m).goroutines| && ws(n).wg == 0
    ensures forall i :: 0 <= i < |ws(n).goroutines| ==> ws(n).goroutines[i].phase == Done
    ensures !Launches(es(n))
  {
    AlwaysInv(ws, es, m);
    AlwaysInv(ws, es, n);
    assert ws(m).shuttingDown && Unfinished(ws(m).goroutines) == 0;
    AfterFlag(ws, es, m, n);
    UnfinishedZero(ws(n).goroutines);
    AfterFlagStep(ws(n), es(n));
  }

  // ----- progress

  function Rank(phase: Phase): nat {
    match phase
    case Spawned => 0
    case Running => 1
    case Returned => 2
    case Done => 3
  }

  /** Goroutine i is no further in the one state than in the other. */
  ghost predicate NoFurther(w: World, w': World, i: nat) {
    && i < |w.goroutines| && i < |w'.goroutines|
    && w'.goroutines[i].stop == w.goroutines[i].stop
    && Rank(w.goroutines[i].phase) <= Rank(w'.goroutines[i].phase)
    && w.closed <= w'.closed
  }

  lemma PhaseStep(w: World, e: Event, i: nat)
    requires Enabled(w, e) && i < |w.goroutines|
    ensures NoFurther(w, Do(w, e), i)
  {
    if e.By? {
      OpEffect(w, e.t, PcOf(w, e.t), e.op);
      hide NextPc, EnabledOp, Effect;
      assert Do(w, e).goroutines[i] == Do(w, e).goroutines[..|w.goroutines|][i];
    }
  }

  lemma NoFurtherThan(a: World, b: World, c: World, i: nat)
    requires NoFurther(a, b, i) && NoFurther(b, c, i)
    ensures NoFurther(a, c, i)
  {}

  lemma {:induction false} PhaseForward(ws: States, es: Events, m: nat, n: nat, i: nat)
    requires IsRun(ws, es) && m <= n && i < |ws(m).goroutines|
    ensures NoFurther(ws(m), ws(n), i)
    decreases n
  {
    hide IsRun, Do, Enabled, Rank;
    if m < n {
      PhaseForward(ws, es, m, n - 1, i);
      RunStep(ws, es, n - 1);
      PhaseStep(ws(n - 1), es(n - 1), i);
      hide NoFurther;
      NoFurtherThan(ws(m), ws(n - 1), ws(n), i);
    }
  }

  /** The scheduler leaves no goroutine in front of Run or of its deferred Done for ever. */
  ghost predicate Scheduled(ws: States) {
    forall n: nat, i: nat ::
      i < |ws(n).goroutines| && ws(n).goroutines[i].phase in {Spawned, Returned} ==>
        exists m: nat :: n <= m && i < |ws(m).goroutines| && ws(m).goroutines[i].phase != ws(n).goroutines[i].phase
  }

  /** Every stop channel passed to Start is closed some time. */
  ghost predicate StopsClose(ws: States) {
    forall n: nat, i: nat :: i < |ws(n).goroutines| ==>
      exists m: nat :: n <= m && ws(n).goroutines[i].stop in ws(m).closed
  }

  /** Run returns some time after its stop channel is closed. */
  ghost predicate RunHonoursStop(ws: States) {
    forall n: nat, i: nat ::
      i < |ws(n).goroutines| && ws(n).goroutines[i].phase == Running
      && ws(n).goroutines[i].stop in ws(n).closed ==>
        exists m: nat :: n <= m && i < |ws(m).goroutines| && ws(m).goroutines[i].phase != Running
  }

  /** A Wait whose counter stays zero is let through some time. */
  ghost predicate WaitLetThrough(ws: States) {
    forall n: nat, t: Thread ::
      PcOf(ws(n), t).ShutdownWait? && (forall m: nat :: n <= m ==> ws(m).wg == 0) ==>
        exists m: nat :: n <= m && !PcOf(ws(m), t).ShutdownWait?
  }

  lemma LeavesPhase(ws: States, n: nat, i: nat) returns (m: nat)
    requires Scheduled(ws) && i < |ws(n).goroutines| && ws(n).goroutines[i].phase in {Spawned, Returned}
    ensures n <= m && i < |ws(m).goroutines| && ws(m).goroutines[i].phase != ws(n).goroutines[i].phase
  {
    m :| n <= m && i < |ws(m).goroutines| && ws(m).goroutines[i].phase != ws(n).goroutines[i].phase;
  }

  lemma StopCloses(ws: States, n: nat, i: nat) returns (m: nat)
    requires StopsClose(ws) && i < |ws(n).goroutines|
    ensures n <= m && ws(n).goroutines[i].stop in ws(m).closed
  {
    m :| n <= m && ws(n).goroutines[i].stop in ws(m).closed;
  }

  lemma RunReturns(ws: States, n: nat, i: nat) returns (m: nat)
    requires RunHonoursStop(ws) && i < |ws(n).goroutines|
    requires ws(n).goroutines[i].phase == Running && ws(n).goroutines[i].stop in ws(n).closed
    ensures n <= m && i < |ws(m).goroutines| && ws(m).goroutines[i].phase != Running
  {
    m :| n <= m && i < |ws(m).goroutines| && ws(m).goroutines[i].phase != Running;
  }

  lemma EventuallyDone(ws: States, es: Events, n: nat, i: nat) returns (m: nat)
    requires IsRun(ws, es) && Scheduled(ws) && StopsClose(ws) && RunHonoursStop(ws)
    requires i < |ws(n).goroutines|
    ensures n <= m && i < |ws(m).goroutines| && ws(m).goroutines[i].phase == Done
  {
    hide IsRun, Scheduled, StopsClose, RunHonoursStop;
    m := n;
    if ws(m).goroutines[i].phase == Spawned {
      var a := LeavesPhase(ws, m, i);
      PhaseForward(ws, es, m, a, i);
      m := a;
    }
    var b := StopCloses(ws, m, i);
    PhaseForward(ws, es, m, b, i);
    m := b;
    if ws(m).goroutines[i].phase == Running {
      var c := RunReturns(ws, m, i);
      PhaseForward(ws, es, m, c, i);
      m := c;
    }
    if ws(m).goroutines[i].phase == Returned {
      var d := LeavesPhase(ws, m, i);
      PhaseForward(ws, es, m, d, i);
      m := d;
    }
  }

  lemma {:induction false} EventuallyAllDone(ws: States, es: Events, n: nat, count: nat) returns (m: nat)
    requires IsRun(ws, es) && Scheduled(ws) && StopsClose(ws) && RunHonoursStop(ws)
    requires count <= |ws(n).goroutines|
    ensures n <= m && count <= |ws(m).goroutines|
    ensures forall i :: 0 <= i < count ==> ws(m).goroutines[i].phase == Done
    decreases count
  {
    hide IsRun, Scheduled, StopsClose, RunHonoursStop;
    if count == 0 {
      m := n;
    } else {
      var a := EventuallyDone(ws, es, n, count - 1);
      m := EventuallyAllDone(ws, es, a, count - 1);
      PhaseForward(ws, es, a, m, count - 1);
    }
  }

  lemma WaitStep(w: World, e: Event, t: Thread)
    requires Enabled(w, e) && PcOf(w, t).ShutdownWait? && !PcOf(Do(w, e), t).ShutdownWait?
    ensures PcOf(Do(w, e), t).ShutdownReturned?
  {}

  lemma {:induction false} WaitEndsByReturning(ws: States, es: Events, t: Thread, n: nat, m: nat) returns (k: nat)
    requires IsRun(ws, es) && n <= m && PcOf(ws(n), t).ShutdownWait? && !PcOf(ws(m), t).ShutdownWait?
    ensures n <= k <= m && PcOf(ws(k), t).ShutdownReturned?
    decreases m
  {
    hide IsRun, Do, Enabled;
    RunStep(ws, es, m - 1);
    if PcOf(ws(m - 1), t).ShutdownWait? {
      WaitStep(ws(m - 1), es(m - 1), t);
      k := m;
    } else {
      k := WaitEndsByReturning(ws, es, t, n, m - 1);
    }
  }

  /** If the stop channels are closed, Run honours them and the scheduler is fair, every
      Shutdown call that waits returns. */
  lemma WaitingShutdownReturns(ws: States, es: Events, n: nat, t: Thread) returns (k: nat)
    requires IsRun(ws, es) && Scheduled(ws) && StopsClose(ws) && RunHonoursStop(ws) && WaitLetThrough(ws)
    requires PcOf(ws(n), t).ShutdownWait?
    ensures n <= k && PcOf(ws(k), t).ShutdownReturned?
  {
    AlwaysInv(ws, es, n);
    var a := EventuallyAllDone(ws, es, n, |ws(n).goroutines|);
    AfterFlag(ws, es, n, a);
    UnfinishedZero(ws(a).goroutines);
    forall m: nat | a <= m
      ensures ws(m).wg == 0
    {
      AfterFlag(ws, es, a, m);
    }
    if PcOf(ws(a), t).ShutdownWait? {
      var m: nat :| a <= m && !PcOf(ws(m), t).ShutdownWait?;
      k := WaitEndsByReturning(ws, es, t, a, m);
    } else {
      k := WaitEndsByReturning(ws, es, t, n, a);
    }
  }
}
