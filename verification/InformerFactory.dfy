/** The factory object. Its methods are what the critical sections of the protocol do: each
    one is shown to take exactly protocol steps of the calling thread. */
module InformerFactory {
  import opened Options
  import opened InformerProtocol
  import opened InformerSafety

  /** The world after a sequence of events, if each of them is enabled in turn. */
  function After(w: World, es: seq<Event>): Option<World> {
    if es == [] then Some(w)
    else
      match After(w, es[..|es| - 1])
      case None => None
      case Some(m) => if Enabled(m, es[|es| - 1]) then Some(Do(m, es[|es| - 1])) else None
  }

  lemma {:induction false} AfterKeepsInv(es: seq<Event>)
    requires After(NEW_WORLD, es).Some?
    ensures Inv(After(NEW_WORLD, es).value)
  {
    if es != [] {
      var m := After(NEW_WORLD, es[..|es| - 1]).value;
      AfterKeepsInv(es[..|es| - 1]);
      InvStep(m, es[|es| - 1]);
    }
  }

  /** The second trace continues the first one with steps of thread t alone. */
  ghost predicate Continues(before: seq<Event>, t: Thread, es: seq<Event>) {
    && |before| <= |es| && es[..|before|] == before
    && forall i :: |before| <= i < |es| ==> es[i].By? && es[i].t == t
  }

  lemma Reflexive(a: seq<Event>, t: Thread)
    ensures Continues(a, t, a)
  {}

  lemma ContinuesOn(a: seq<Event>, t: Thread, b: seq<Event>, c: seq<Event>)
    requires Continues(a, t, b) && Continues(b, t, c)
    ensures Continues(a, t, c)
  {
    assert c[..|a|] == b[..|a|];
    forall i | |a| <= i < |c|
      ensures c[i].By? && c[i].t == t
    {
      assert i < |b| ==> c[..|b|][i] == b[i];
    }
  }

  /** One new goroutine for each of these kinds. */
  ghost predicate LaunchedFor(gs: seq<Goroutine>, kinds: set<Kind>, informers: map<Kind, Informer>, stop: Channel) {
    && (forall i :: 0 <= i < |gs| ==>
          gs[i].kind in kinds && gs[i].kind in informers
          && gs[i] == Goroutine(gs[i].kind, informers[gs[i].kind], stop, Spawned))
    && (forall i, j :: 0 <= i < j < |gs| ==> gs[i].kind != gs[j].kind)
    && |gs| == |kinds|
  }

  lemma NoneLaunched(informers: map<Kind, Informer>, stop: Channel)
    ensures LaunchedFor([], {}, informers, stop)
  {}

  lemma LaunchedForMore(gs: seq<Goroutine>, kinds: set<Kind>, informers: map<Kind, Informer>, stop: Channel, k: Kind)
    requires LaunchedFor(gs, kinds, informers, stop) && k in informers && k !in kinds
    ensures LaunchedFor(gs + [Goroutine(k, informers[k], stop, Spawned)], kinds + {k}, informers, stop)
  {}

  class SharedInformerFactory {
    var informers: map<Kind, Informer>
    var startedInformers: map<Kind, bool>
    var wg: int
    var shuttingDown: bool
    var launched: seq<Goroutine>
    ghost var world: World
    ghost var trace: seq<Event>

    /** startedInformers[k], which is false for a missing key. */
    predicate Started(k: Kind)
      reads this
    {
      k in startedInformers && startedInformers[k]
    }

    /** The fields are the shared part of a protocol state that the steps taken so far reach
        from the new factory. */
    ghost predicate Valid()
      reads this
    {
      && world.informers == informers
      && (forall k :: k in world.started <==> Started(k))
      && world.wg == wg
      && world.shuttingDown == shuttingDown
      && world.goroutines == launched
      && After(NEW_WORLD, trace) == Some(world)
    }

    /** Thread t may call a method, and nobody is inside a critical section. */
    ghost predicate MayCall(t: Thread)
      reads this
    {
      Valid() && Free(PcOf(world, t)) && world.lock == None
    }

    constructor ()
      ensures Valid() && world == NEW_WORLD && trace == []
    {
      informers, startedInformers, wg, shuttingDown, launched := map[], map[], 0, false, [];
      world, trace := NEW_WORLD, [];
    }

    /** One protocol step. From carries the trace at the start of the call along. */
    ghost method Step(t: Thread, op: Op, from: seq<Event>)
      requires EnabledOp(world, PcOf(world, t), op)
      requires After(NEW_WORLD, trace) == Some(world) && Continues(from, t, trace)
      modifies this`world, this`trace
      ensures var pc := PcOf(old(world), t);
              && PcOf(world, t) == NextPc(old(world), pc, op)
              && world == Effect(old(world), t, pc, op).(pcs := world.pcs)
      ensures After(NEW_WORLD, trace) == Some(world) && Continues(from, t, trace)
    {
      assert (trace + [By(t, op)])[..|trace|] == trace;
      ContinuesOn(from, t, trace, trace + [By(t, op)]);
      world := Do(world, By(t, op));
      trace := trace + [By(t, op)];
    }

    /** Enter a method and take the lock. */
    ghost method Enter(t: Thread, begin: Op)
      requires MayCall(t) && (begin.BeginStart? || begin.BeginShutdown? || begin.BeginFor? || begin.BeginSync?)
      modifies this`world, this`trace
      ensures Valid() && Continues(old(trace), t, trace)
      ensures world.lock == Some(t) && world.started == old(world.started)
      ensures begin.BeginStart? ==> PcOf(world, t) == StartCheck(begin.stop)
      ensures begin.BeginShutdown? ==> PcOf(world, t) == ShutdownFlag
      ensures begin.BeginFor? ==> PcOf(world, t) == ForLookup(begin.kind)
      ensures begin.BeginSync? ==> PcOf(world, t) == SyncScan(informers.Keys, world.started, map[])
    {
      hide After, Continues;
      ghost var from := trace;
      assert Continues(from, t, trace) by {
        Reflexive(from, t);
      }
      Step(t, begin, from);
      Step(t, Lock, from);
    }

    /** Release the lock. */
    ghost method Leave(t: Thread, from: seq<Event>)
      requires Valid() && EnabledOp(world, PcOf(world, t), Unlock) && Continues(from, t, trace)
      modifies this`world, this`trace
      ensures Valid() && Continues(from, t, trace)
      ensures world.lock == None && world.started == old(world.started)
      ensures PcOf(world, t) == NextPc(old(world), PcOf(old(world), t), Unlock)
    {
      hide After, Continues, NextPc, EnabledOp;
      Step(t, Unlock, from);
    }

    /** The flag is tested and down. */
    ghost method PassCheck(t: Thread, from: seq<Event>)
      requires Valid() && PcOf(world, t).StartCheck? && !shuttingDown && Continues(from, t, trace)
      modifies this`world, this`trace
      ensures Valid() && Continues(from, t, trace)
      ensures world.lock == old(world.lock) && world.started == old(world.started)
      ensures PcOf(world, t) == StartLoop(PcOf(old(world), t).stop, informers.Keys)
    {
      hide After, Continues;
      Step(t, CheckFlag, from);
    }

    ghost method SkipStarted(t: Thread, k: Kind, from: seq<Event>)
      requires Valid() && PcOf(world, t).StartLoop? && k in PcOf(world, t).todo && Started(k)
      requires Continues(from, t, trace)
      modifies this`world, this`trace
      ensures Valid() && Continues(from, t, trace)
      ensures world.lock == old(world.lock) && world.started == old(world.started)
      ensures PcOf(world, t) == StartLoop(PcOf(old(world), t).stop, PcOf(old(world), t).todo - {k})
    {
      hide After, Continues;
      Step(t, Visit(k), from);
    }

    /** Add, go and the mark in startedInformers. */
    ghost method LaunchSteps(t: Thread, k: Kind, from: seq<Event>)
      requires PcOf(world, t).StartLoop? && k in PcOf(world, t).todo && k in world.informers && k !in world.started
      requires After(NEW_WORLD, trace) == Some(world) && Continues(from, t, trace)
      modifies this`world, this`trace
      ensures After(NEW_WORLD, trace) == Some(world) && Continues(from, t, trace)
      ensures var pc := PcOf(old(world), t);
              && PcOf(world, t) == StartLoop(pc.stop, pc.todo - {k})
              && world == old(world).(wg := old(world).wg + 1, started := old(world).started + {k}, pcs := world.pcs,
                   goroutines := old(world).goroutines + [Goroutine(k, old(world).informers[k], pc.stop, Spawned)])
    {
      hide After, Continues;
      Step(t, Visit(k), from);
      Step(t, Op.Launch, from);
      Step(t, Op.Mark, from);
    }

    ghost method FinishStart(t: Thread, from: seq<Event>)
      requires Valid() && PcOf(world, t).StartLoop? && PcOf(world, t).todo == {} && Continues(from, t, trace)
      modifies this`world, this`trace
      ensures Valid() && Continues(from, t, trace)
      ensures world.lock == None && world.started == old(world.started) && PcOf(world, t) == Idle
    {
      hide After, Continues;
      Step(t, EndLoop, from);
      Leave(t, from);
    }

    ghost method ScanOne(t: Thread, k: Kind, from: seq<Event>)
      requires Valid() && PcOf(world, t).SyncScan? && k in PcOf(world, t).todo && k in informers
      requires Continues(from, t, trace)
      modifies this`world, this`trace
      ensures Valid() && Continues(from, t, trace)
      ensures world.lock == old(world.lock) && world.started == old(world.started)
      ensures var pc := PcOf(old(world), t);
              PcOf(world, t) == SyncScan(pc.todo - {k}, pc.seen,
                if Started(k) then pc.snapshot[k := informers[k]] else pc.snapshot)
    {
      hide After, Continues;
      Step(t, Scan(k), from);
    }

    ghost method FinishScan(t: Thread, from: seq<Event>)
      requires Valid() && PcOf(world, t).SyncScan? && PcOf(world, t).todo == {} && Continues(from, t, trace)
      modifies this`world, this`trace
      ensures Valid() && Continues(from, t, trace)
      ensures world.lock == None && world.started == old(world.started)
      ensures var pc := PcOf(old(world), t);
              PcOf(world, t) == SyncPoll(pc.snapshot.Keys, pc.seen, pc.snapshot, map[])
    {
      hide After, Continues;
      Step(t, EndScan, from);
      Leave(t, from);
    }

    /** The critical section of Start. */
    method Start(stop: Channel, ghost t: Thread)
      requires MayCall(t)
      modifies this
      ensures Valid() && world.lock == None && PcOf(world, t) == Idle
      ensures Continues(old(trace), t, trace)
      ensures informers == old(informers) && shuttingDown == old(shuttingDown)
      ensures shuttingDown ==>
                startedInformers == old(startedInformers) && wg == old(wg) && launched == old(launched)
      ensures !shuttingDown ==>
                && (forall k :: Started(k) <==> old(Started(k)) || k in informers)
                && old(launched) <= launched
                && LaunchedFor(launched[|old(launched)|..], informers.Keys - old(world.started), informers, stop)
                && wg == old(wg) + |launched| - |old(launched)|
    {
      Enter(t, BeginStart(stop));
      if shuttingDown {
        Step(t, CheckFlag, old(trace));
        Leave(t, old(trace));
        return;
      }
      PassCheck(t, old(trace));
      ghost var kinds := StartAll(stop, t, old(trace));
      FinishStart(t, old(trace));
    }

    /** The loop of Start. */
    method StartAll(stop: Channel, ghost t: Thread, ghost from: seq<Event>) returns (ghost kinds: set<Kind>)
      requires Valid() && PcOf(world, t) == StartLoop(stop, informers.Keys) && world.lock == Some(t)
      requires !shuttingDown && Continues(from, t, trace)
      modifies this
      ensures Valid() && PcOf(world, t) == StartLoop(stop, {}) && Continues(from, t, trace)
      ensures informers == old(informers) && shuttingDown == old(shuttingDown)
      ensures kinds == informers.Keys - old(world.started) && world.started == old(world.started) + informers.Keys
      ensures old(launched) <= launched && wg == old(wg) + |launched| - |old(launched)|
      ensures LaunchedFor(launched[|old(launched)|..], kinds, informers, stop)
    {
      hide After, Continues, NextPc, Effect, EnabledOp, LaunchedFor;
      ghost var before := |launched|;
      kinds := {};
      NoneLaunched(informers, stop);
      assert launched[before..] == [];
      var todo := informers.Keys;
      while todo != {}
        invariant Valid() && informers == old(informers) && shuttingDown == old(shuttingDown)
        invariant todo <= informers.Keys && PcOf(world, t) == StartLoop(stop, todo) && world.lock == Some(t)
        invariant Continues(from, t, trace)
        invariant forall k :: k in kinds <==> k in informers && k !in old(world.started) && k !in todo
        invariant forall k :: k in world.started <==> k in old(world.started) || k in kinds
        invariant old(launched) <= launched && wg == old(wg) + |launched| - before
        invariant LaunchedFor(launched[before..], kinds, informers, stop)
      {
        var k :| k in todo;
        kinds := StartOne(k, stop, todo, t, from, before, kinds);
        todo := todo - {k};
      }
    }

    /** Add, go and the mark, for one informer. */
    method Launch(k: Kind, stop: Channel, ghost todo: set<Kind>, ghost t: Thread, ghost from: seq<Event>)
      requires Valid() && k in informers && k in todo && !Started(k)
      requires PcOf(world, t) == StartLoop(stop, todo) && Continues(from, t, trace)
      modifies this
      ensures Valid() && PcOf(world, t) == StartLoop(stop, todo - {k}) && world.lock == old(world.lock)
      ensures Continues(from, t, trace)
      ensures informers == old(informers) && shuttingDown == old(shuttingDown)
      ensures world.started == old(world.started) + {k} && wg == old(wg) + 1
      ensures launched == old(launched) + [Goroutine(k, informers[k], stop, Spawned)]
    {
      hide After, Continues, NextPc, Effect, EnabledOp;
      LaunchSteps(t, k, from);
      wg := wg + 1;
      launched := launched + [Goroutine(k, informers[k], stop, Spawned)];
      startedInformers := startedInformers[k := true];
    }

    /** The body of that loop. Kinds collects the ones launched by this call of Start. */
    method StartOne(k: Kind, stop: Channel, ghost todo: set<Kind>, ghost t: Thread, ghost from: seq<Event>,
                    ghost before: nat, ghost kinds: set<Kind>)
      returns (ghost kinds': set<Kind>)
      requires Valid() && k in informers && k in todo && (k in kinds ==> Started(k))
      requires PcOf(world, t) == StartLoop(stop, todo) && Continues(from, t, trace)
      requires before <= |launched| && LaunchedFor(launched[before..], kinds, informers, stop)
      modifies this
      ensures Valid() && PcOf(world, t) == StartLoop(stop, todo - {k}) && world.lock == old(world.lock)
      ensures Continues(from, t, trace)
      ensures informers == old(informers) && shuttingDown == old(shuttingDown)
      ensures kinds' == if old(Started(k)) then kinds else kinds + {k}
      ensures world.started == old(world.started) + (kinds' - kinds) && k in world.started
      ensures old(launched) <= launched && wg - old(wg) == |launched| - |old(launched)|
      ensures LaunchedFor(launched[before..], kinds', informers, stop)
    {
      hide After, Continues, NextPc, Effect, EnabledOp, LaunchedFor;
      kinds' := kinds;
      if !Started(k) {
        LaunchedForMore(launched[before..], kinds, informers, stop, k);
        Launch(k, stop, todo, t, from);
        assert launched[before..] == old(launched[before..]) + [Goroutine(k, informers[k], stop, Spawned)];
        kinds' := kinds + {k};
      } else {
        SkipStarted(t, k, from);
      }
    }

    /** The critical section of Shutdown. The wait that follows is the step WaitReturns. */
    method BeginShutdown(ghost t: Thread)
      requires MayCall(t)
      modifies this
      ensures Valid() && shuttingDown && world.lock == None && PcOf(world, t) == ShutdownWait
      ensures Continues(old(trace), t, trace)
      ensures informers == old(informers) && startedInformers == old(startedInformers)
      ensures wg == old(wg) && launched == old(launched)
    {
      hide After, Continues;
      Enter(t, Op.BeginShutdown);
      Step(t, SetFlag, old(trace));
      shuttingDown := true;
      Leave(t, old(trace));
    }

    /** The lookup and, for a new kind, the registration. */
    ghost method LookupSteps(t: Thread, k: Kind, created: Informer, from: seq<Event>)
      requires PcOf(world, t) == ForLookup(k) && After(NEW_WORLD, trace) == Some(world) && Continues(from, t, trace)
      modifies this`world, this`trace
      ensures After(NEW_WORLD, trace) == Some(world) && Continues(from, t, trace)
      ensures var before := old(world);
              if k in before.informers then
                && PcOf(world, t) == ForExit(k, before.informers[k])
                && world == before.(pcs := world.pcs)
              else
                && PcOf(world, t) == ForExit(k, created)
                && world == before.(
                     pcs := world.pcs, informers := before.informers[k := created], created := before.created + [k])
    {
      hide After, Continues;
      Step(t, Lookup, from);
      if k !in old(world).informers {
        Step(t, Create(created), from);
      }
    }

    ghost method LeaveFor(t: Thread, k: Kind, informer: Informer, from: seq<Event>)
      requires Valid() && PcOf(world, t) == ForExit(k, informer) && Continues(from, t, trace)
      modifies this`world, this`trace
      ensures Valid() && Continues(from, t, trace) && world.lock == None
      ensures PcOf(world, t) == ForReturned(k, informer)
    {
      hide After, Continues;
      Leave(t, from);
    }

    /** InformerFor: created is what newFunc would return, and is used only for a new kind. */
    method InformerFor(k: Kind, created: Informer, ghost t: Thread) returns (informer: Informer)
      requires MayCall(t)
      modifies this
      ensures Valid() && world.lock == None && PcOf(world, t) == ForReturned(k, informer)
      ensures Continues(old(trace), t, trace)
      ensures informer == if k in old(informers) then old(informers)[k] else created
      ensures informers == if k in old(informers) then old(informers) else old(informers)[k := created]
      ensures startedInformers == old(startedInformers) && shuttingDown == old(shuttingDown)
      ensures wg == old(wg) && launched == old(launched)
    {
      hide After, Continues, NextPc, Effect, EnabledOp;
      Enter(t, BeginFor(k));
      LookupSteps(t, k, created, old(trace));
      if k in informers {
        informer := informers[k];
      } else {
        informer := created;
        informers := informers[k := created];
      }
      LeaveFor(t, k, informer, old(trace));
    }

    /** The critical section of WaitForCacheSync: the started informers at this moment. */
    method SnapshotStarted(ghost t: Thread) returns (snapshot: map<Kind, Informer>)
      requires MayCall(t)
      modifies this`world, this`trace
      ensures Valid() && world.lock == None
      ensures PcOf(world, t) == SyncPoll(snapshot.Keys, world.started, snapshot, map[])
      ensures Continues(old(trace), t, trace)
      ensures forall k :: k in snapshot <==> Started(k)
      ensures forall k :: k in snapshot ==> k in informers && snapshot[k] == informers[k]
    {
      AfterKeepsInv(trace);
      hide After, Continues, NextPc, Effect, EnabledOp;
      ghost var started := world.started;
      assert started <= informers.Keys;
      Enter(t, BeginSync);
      snapshot := map[];
      var todo := informers.Keys;
      while todo != {}
        invariant Valid() && todo <= informers.Keys && world.lock == Some(t) && world.started == started
        invariant PcOf(world, t) == SyncScan(todo, started, snapshot)
        invariant Continues(old(trace), t, trace)
        invariant forall k :: k in snapshot <==> k in started && k !in todo
        invariant forall k :: k in snapshot ==> k in informers && snapshot[k] == informers[k]
      {
        var k :| k in todo;
        ScanOne(t, k, old(trace));
        if Started(k) {
          snapshot := snapshot[k := informers[k]];
        }
        todo := todo - {k};
      }
      FinishScan(t, old(trace));
    }
  }
}
