/** What every step of the factory's protocol keeps. */
module InformerSafety {
  import opened Options
  import opened InformerProtocol

  lemma {:induction false} UnfinishedUpdate(gs: seq<Goroutine>, i: nat, g: Goroutine)
    requires i < |gs|
    ensures Unfinished(gs[i := g]) ==
            Unfinished(gs) - (if gs[i].phase == Done then 0 else 1) + if g.phase == Done then 0 else 1
  {
    var last := |gs| - 1;
    if i < last {
      UnfinishedUpdate(gs[..last], i, g);
      assert gs[i := g][..last] == gs[..last][i := g];
    } else {
      assert gs[i := g][..last] == gs[..last];
    }
  }

  lemma {:induction false} UnfinishedZero(gs: seq<Goroutine>)
    ensures Unfinished(gs) == 0 <==> forall i :: 0 <= i < |gs| ==> gs[i].phase == Done
  {
    if gs != [] {
      UnfinishedZero(gs[..|gs| - 1]);
    }
  }

  // ----- one step

  /** How a statement moves between the program points the invariant speaks of. */
  lemma OpShape(w: World, pc: Pc, op: Op)
    requires EnabledOp(w, pc, op)
    ensures Holding(NextPc(w, pc, op)) <==> (op.Lock? || (Holding(pc) && !op.Unlock?))
    ensures op.Lock? ==> w.lock == None && !Holding(pc)
    ensures op.Unlock? || op.SetFlag? || op.Launch? || op.Mark? || op.Create? || op.Visit? ==> Holding(pc)
    ensures Starting(NextPc(w, pc, op)) ==> Starting(pc) || (op.CheckFlag? && !w.shuttingDown)
    ensures op.SetFlag? ==> !Starting(pc) && !Starting(NextPc(w, pc, op))
    ensures op.Launch? ==> pc.StartAdded?
    ensures op.Mark? ==> pc.StartLaunched?
    ensures pc.StartAdded? <==> op.Launch?
    ensures pc.StartLaunched? <==> op.Mark?
    ensures NextPc(w, pc, op).StartAdded? <==> op.Visit? && op.kind !in w.started
    ensures NextPc(w, pc, op).StartLaunched? <==> op.Launch?
    ensures op.Launch? ==> NextPc(w, pc, op).kind == pc.kind
    ensures AfterFlag(NextPc(w, pc, op)) ==> AfterFlag(pc) || op.SetFlag?
    ensures NextPc(w, pc, op).ShutdownReturned? ==> pc.ShutdownWait? && w.wg == 0
  {}

  /** Which statement changes what. */
  lemma OpEffect(w: World, t: Thread, pc: Pc, op: Op)
    requires EnabledOp(w, pc, op)
    ensures var w' := Effect(w, t, pc, op);
            && w'.pcs == w.pcs && w'.closed == w.closed
            && w'.lock == (if op.Lock? then Some(t) else if op.Unlock? then None else w.lock)
            && w'.started == (if op.Mark? then w.started + {pc.kind} else w.started)
            && w'.wg == (if op.Visit? && op.kind !in w.started then w.wg + 1 else w.wg)
            && w'.shuttingDown == (w.shuttingDown || op.SetFlag?)
            && |w'.goroutines| == |w.goroutines| + (if op.Launch? then 1 else 0)
            && w'.goroutines[..|w.goroutines|] == w.goroutines
            && (op.Launch? ==>
                  w'.goroutines[|w.goroutines|] == Goroutine(pc.kind, w.informers[pc.kind], pc.stop, Spawned))
  {}

  predicate AfterFlag(pc: Pc) {
    pc.ShutdownExit? || pc.ShutdownWait? || pc.ShutdownReturned?
  }

  /** A statement keeps what its own thread relies on. */
  lemma OwnStep(w: World, t: Thread, pc: Pc, op: Op)
    requires EnabledOp(w, pc, op) && ThreadInv(w.informers, w.started, pc) && w.started <= w.informers.Keys
    ensures var w' := Effect(w, t, pc, op);
            ThreadInv(w'.informers, w'.started, NextPc(w, pc, op))
  {}

  /** A statement that does not register or start an informer keeps what others rely on, and
      one that does keeps what a thread without the lock relies on. */
  lemma OtherStep(w: World, t: Thread, pc: Pc, op: Op, other: Pc)
    requires EnabledOp(w, pc, op) && ThreadInv(w.informers, w.started, pc)
    requires ThreadInv(w.informers, w.started, other) && !(Holding(pc) && Holding(other))
    ensures var w' := Effect(w, t, pc, op);
            ThreadInv(w'.informers, w'.started, other)
  {
    OpShape(w, pc, op);
    hide NextPc;
  }

  lemma RegistryStep(w: World, t: Thread, pc: Pc, op: Op)
    requires EnabledOp(w, pc, op) && ThreadInv(w.informers, w.started, pc)
    requires RegistryInv(w.informers, w.started, w.created)
    ensures var w' := Effect(w, t, pc, op);
            && RegistryInv(w'.informers, w'.started, w'.created)
            && w.started <= w'.started
            && forall k :: k in w.informers ==> k in w'.informers && w'.informers[k] == w.informers[k]
  {
    hide NextPc;
    if !op.Mark? && !op.Create? {
      assert Effect(w, t, pc, op).informers == w.informers && Effect(w, t, pc, op).started == w.started;
      assert Effect(w, t, pc, op).created == w.created;
      hide Effect, EnabledOp, ThreadInv, RegistryInv;
    } else {
      RegistryChanges(w, t, pc, op);
      hide Effect, EnabledOp, ThreadInv, RegistryInv;
    }
  }

  lemma RegistryChanges(w: World, t: Thread, pc: Pc, op: Op)
    requires EnabledOp(w, pc, op) && ThreadInv(w.informers, w.started, pc) && (op.Mark? || op.Create?)
    requires RegistryInv(w.informers, w.started, w.created)
    ensures var w' := Effect(w, t, pc, op);
            && RegistryInv(w'.informers, w'.started, w'.created)
            && w.started <= w'.started
            && forall k :: k in w.informers ==> k in w'.informers && w'.informers[k] == w.informers[k]
  {}

  lemma LockStep(w: World, e: Event)
    requires LockInv(w) && Enabled(w, e)
    ensures LockInv(Do(w, e))
  {
    if e.By? {
      OpShape(w, PcOf(w, e.t), e.op);
      hide NextPc, EnabledOp;
      forall u
        ensures Holding(PcOf(Do(w, e), u)) <==> Do(w, e).lock == Some(u)
      {
        assert Holding(PcOf(w, u)) <==> w.lock == Some(u);
      }
    }
  }

  lemma CountOp(w: World, t: Thread, op: Op)
    requires LockInv(w) && EnabledOp(w, PcOf(w, t), op) && w.wg == Unfinished(w.goroutines) + Pending(w)
    ensures var w' := Do(w, By(t, op)); w'.wg == Unfinished(w'.goroutines) + Pending(w')
  {
    OpShape(w, PcOf(w, t), op);
    OpEffect(w, t, PcOf(w, t), op);
    assert Holding(PcOf(w, t)) <==> w.lock == Some(t);
    hide NextPc, EnabledOp, Effect, LockInv;
    assert !op.Launch? ==> Do(w, By(t, op)).goroutines == w.goroutines;
  }

  lemma CountStep(w: World, e: Event)
    requires Inv(w) && Enabled(w, e)
    ensures Do(w, e).wg == Unfinished(Do(w, e).goroutines) + Pending(Do(w, e))
  {
    hide OnePerKind, RegistryInv, ThreadInv, FlagInv, LockInv;
    if e.By? {
      CountOp(w, e.t, e.op);
    } else if !e.Close? {
      UnfinishedUpdate(w.goroutines, e.i, Do(w, e).goroutines[e.i]);
    }
  }

  lemma FlagStepOp(w: World, t: Thread, op: Op, u: Thread)
    requires Inv(w) && EnabledOp(w, PcOf(w, t), op)
    ensures var w' := Do(w, By(t, op));
            && (w'.shuttingDown ==> !Starting(PcOf(w', u)))
            && (AfterFlag(PcOf(w', u)) ==> w'.shuttingDown)
            && (PcOf(w', u).ShutdownReturned? ==> Unfinished(w'.goroutines) == 0)
  {
    hide OnePerKind;
    OpShape(w, PcOf(w, t), op);
    OpEffect(w, t, PcOf(w, t), op);
    assert Holding(PcOf(w, t)) <==> w.lock == Some(t);
    assert Holding(PcOf(w, u)) <==> w.lock == Some(u);
    assert w.shuttingDown ==> !Starting(PcOf(w, t)) && !Starting(PcOf(w, u));
    assert AfterFlag(PcOf(w, t)) ==> w.shuttingDown;
    assert AfterFlag(PcOf(w, u)) ==> w.shuttingDown;
    assert PcOf(w, u).ShutdownReturned? ==> Unfinished(w.goroutines) == 0;
    hide NextPc, EnabledOp, Effect;
    assert !op.Launch? ==> Do(w, By(t, op)).goroutines == w.goroutines;
  }

  lemma FlagStep(w: World, e: Event)
    requires Inv(w) && Enabled(w, e)
    ensures FlagInv(Do(w, e))
  {
    var w' := Do(w, e);
    if e.By? {
      forall u {
        FlagStepOp(w, e.t, e.op, u);
      }
    } else {
      UnfinishedZero(w.goroutines);
      assert forall u :: PcOf(w', u) == PcOf(w, u);
    }
  }

  predicate Launches(e: Event) {
    e.By? && e.op.Launch?
  }

  /** A goroutine keeps its kind, its informer and its stop channel, and only Launch adds one. */
  lemma GoroutinesGrow(w: World, e: Event)
    requires Enabled(w, e)
    ensures |Do(w, e).goroutines| == |w.goroutines| + if Launches(e) then 1 else 0
    ensures forall i :: 0 <= i < |w.goroutines| ==>
              Do(w, e).goroutines[i] == w.goroutines[i].(phase := Do(w, e).goroutines[i].phase)
  {
    hide NextPc;
  }

  lemma LaunchedKindsStep(w: World, e: Event)
    requires Inv(w) && Enabled(w, e)
    ensures LaunchedKinds(Do(w, e)) ==
            if Launches(e) then LaunchedKinds(w) + {PcOf(w, e.t).kind} else LaunchedKinds(w)
    ensures Launches(e) ==> PcOf(w, e.t).kind !in LaunchedKinds(w)
  {
    if e.By? {
      OpShape(w, PcOf(w, e.t), e.op);
      OpEffect(w, e.t, PcOf(w, e.t), e.op);
      assert Holding(PcOf(w, e.t)) <==> w.lock == Some(e.t);
      assert ThreadInv(w.informers, w.started, PcOf(w, e.t));
      hide NextPc, EnabledOp, Effect;
    }
  }

  lemma OnePerKindKept(informers: map<Kind, Informer>, informers': map<Kind, Informer>,
                       kinds: set<Kind>, gs: seq<Goroutine>, gs': seq<Goroutine>)
    requires OnePerKind(informers, kinds, gs)
    requires forall k :: k in informers ==> k in informers' && informers'[k] == informers[k]
    requires |gs'| == |gs| && forall i :: 0 <= i < |gs| ==> gs'[i] == gs[i].(phase := gs'[i].phase)
    ensures OnePerKind(informers', kinds, gs')
  {
    forall k | k in kinds
      ensures exists i :: 0 <= i < |gs'| && gs'[i].kind == k
    {
      var i :| 0 <= i < |gs| && gs[i].kind == k;
      assert gs'[i].kind == k;
    }
  }

  lemma OnePerKindLaunch(informers: map<Kind, Informer>, kinds: set<Kind>, gs: seq<Goroutine>, g: Goroutine)
    requires OnePerKind(informers, kinds, gs)
    requires g.kind in informers && g.informer == informers[g.kind] && g.kind !in kinds
    ensures OnePerKind(informers, kinds + {g.kind}, gs + [g])
  {
    forall k | k in kinds + {g.kind}
      ensures exists i :: 0 <= i < |gs + [g]| && (gs + [g])[i].kind == k
    {
      if k in kinds {
        var i :| 0 <= i < |gs| && gs[i].kind == k;
        assert (gs + [g])[i].kind == k;
      } else {
        assert (gs + [g])[|gs|].kind == k;
      }
    }
  }

  lemma GoroutineStep(w: World, e: Event)
    requires Inv(w) && Enabled(w, e)
    ensures OnePerKind(Do(w, e).informers, LaunchedKinds(Do(w, e)), Do(w, e).goroutines)
  {
    hide OnePerKind;
    GoroutinesGrow(w, e);
    LaunchedKindsStep(w, e);
    if Launches(e) {
      var pc := PcOf(w, e.t);
      OnePerKindLaunch(w.informers, LaunchedKinds(w), w.goroutines,
                       Goroutine(pc.kind, w.informers[pc.kind], pc.stop, Spawned));
    } else {
      if e.By? {
        assert ThreadInv(w.informers, w.started, PcOf(w, e.t));
        RegistryStep(w, e.t, PcOf(w, e.t), e.op);
      }
      hide NextPc, EnabledOp, Effect;
      OnePerKindKept(w.informers, Do(w, e).informers, LaunchedKinds(w), w.goroutines, Do(w, e).goroutines);
    }
  }

  lemma InvStep(w: World, e: Event)
    requires Inv(w) && Enabled(w, e)
    ensures Inv(Do(w, e))
  {
    hide OnePerKind;
    var w' := Do(w, e);
    LockStep(w, e);
    CountStep(w, e);
    FlagStep(w, e);
    GoroutineStep(w, e);
    if e.By? {
      var pc := PcOf(w, e.t);
      assert ThreadInv(w.informers, w.started, pc);
      RegistryStep(w, e.t, pc, e.op);
      forall u
        ensures ThreadInv(w'.informers, w'.started, PcOf(w', u))
      {
        assert ThreadInv(w.informers, w.started, PcOf(w, u));
        if u == e.t {
          OwnStep(w, u, pc, e.op);
        } else {
          assert Holding(PcOf(w, u)) <==> w.lock == Some(u);
          assert Holding(pc) <==> w.lock == Some(e.t);
          OtherStep(w, e.t, pc, e.op, PcOf(w, u));
        }
      }
    } else {
      assert forall u :: PcOf(w', u) == PcOf(w, u);
    }
  }
}
