/** The shared informer factory as a transition system: any number of threads call Start,
    Shutdown, InformerFor and WaitForCacheSync, informer goroutines run beside them, and
    every statement that touches shared state is one step. */
module InformerProtocol {
  import opened Options

  type Kind = string
  type Informer = nat
  type Channel = nat
  type Thread = int

  /** A launched goroutine: scheduled, inside Run, past Run, past its deferred Done. */
  datatype Phase = Spawned | Running | Returned | Done
  datatype Goroutine = Goroutine(kind: Kind, informer: Informer, stop: Channel, phase: Phase)

  /** Where a thread is. The states named in Holding are those between Lock and Unlock. */
  datatype Pc =
    | Idle
    | StartEnter(stop: Channel)
    | StartCheck(stop: Channel)
    | StartLoop(stop: Channel, todo: set<Kind>)
    | StartAdded(stop: Channel, todo: set<Kind>, kind: Kind)
    | StartLaunched(stop: Channel, todo: set<Kind>, kind: Kind)
    | StartExit(ran: bool)
    | ShutdownEnter
    | ShutdownFlag
    | ShutdownExit
    | ShutdownWait
    | ShutdownReturned
    | ForEnter(kind: Kind)
    | ForLookup(kind: Kind)
    | ForNew(kind: Kind)
    | ForExit(kind: Kind, informer: Informer)
    | ForReturned(kind: Kind, informer: Informer)
    | SyncEnter
    | SyncScan(todo: set<Kind>, seen: set<Kind>, snapshot: map<Kind, Informer>)
    | SyncExit(seen: set<Kind>, snapshot: map<Kind, Informer>)
    | SyncPoll(todo: set<Kind>, seen: set<Kind>, snapshot: map<Kind, Informer>, result: map<Kind, bool>)
    | SyncReturned(seen: set<Kind>, result: map<Kind, bool>)

  datatype World = World(
    informers: map<Kind, Informer>, started: set<Kind>, wg: int, shuttingDown: bool,
    lock: Option<Thread>, pcs: map<Thread, Pc>, goroutines: seq<Goroutine>,
    created: seq<Kind>, closed: set<Channel>)

  /** The statements of a calling thread; Begin ones enter a method. */
  datatype Op =
    | BeginStart(stop: Channel) | BeginShutdown | BeginFor(kind: Kind) | BeginSync
    | Lock | Unlock
    | CheckFlag | Visit(kind: Kind) | Launch | Mark | EndLoop
    | SetFlag | WaitReturns
    | Lookup | Create(informer: Informer)
    | Scan(kind: Kind) | EndScan | Poll(kind: Kind, synced: bool) | EndPoll

  datatype Event =
    | By(t: Thread, op: Op)
    | GoRun(i: nat) | GoReturn(i: nat) | GoDone(i: nat)
    | Close(channel: Channel)

  function PcOf(w: World, t: Thread): Pc {
    if t in w.pcs then w.pcs[t] else Idle
  }

  predicate Holding(pc: Pc) {
    || pc.StartCheck? || pc.StartLoop? || pc.StartAdded? || pc.StartLaunched? || pc.StartExit?
    || pc.ShutdownFlag? || pc.ShutdownExit?
    || pc.ForLookup? || pc.ForNew? || pc.ForExit?
    || pc.SyncScan? || pc.SyncExit?
  }

  predicate Free(pc: Pc) {
    pc.Idle? || pc.ShutdownReturned? || pc.ForReturned? || pc.SyncReturned?
  }

  /** Inside Start, past the test of the shutdown flag and before the end of the loop. */
  predicate Starting(pc: Pc) {
    pc.StartLoop? || pc.StartAdded? || pc.StartLaunched?
  }

  // ----- steps

  predicate EnabledOp(w: World, pc: Pc, op: Op) {
    match op
    case BeginStart(_) => Free(pc)
    case BeginShutdown => Free(pc)
    case BeginFor(_) => Free(pc)
    case BeginSync => Free(pc)
    case Lock => w.lock == None && (pc.StartEnter? || pc.ShutdownEnter? || pc.ForEnter? || pc.SyncEnter?)
    case Unlock => pc.StartExit? || pc.ShutdownExit? || pc.ForExit? || pc.SyncExit?
    case CheckFlag => pc.StartCheck?
    case Visit(k) => pc.StartLoop? && k in pc.todo
    case Launch => pc.StartAdded? && pc.kind in w.informers
    case Mark => pc.StartLaunched?
    case EndLoop => pc.StartLoop? && pc.todo == {}
    case SetFlag => pc.ShutdownFlag?
    case WaitReturns => pc.ShutdownWait? && w.wg == 0
    case Lookup => pc.ForLookup?
    case Create(_) => pc.ForNew?
    case Scan(k) => pc.SyncScan? && k in pc.todo && k in w.informers
    case EndScan => pc.SyncScan? && pc.todo == {}
    case Poll(k, _) => pc.SyncPoll? && k in pc.todo
    case EndPoll => pc.SyncPoll? && pc.todo == {}
  }

  /** Where the statement leaves the thread. */
  function NextPc(w: World, pc: Pc, op: Op): Pc
    requires EnabledOp(w, pc, op)
  {
    match op
    case BeginStart(stop) => StartEnter(stop)
    case BeginShutdown => ShutdownEnter
    case BeginFor(k) => ForEnter(k)
    case BeginSync => SyncEnter
    case Lock =>
      (match pc
       case StartEnter(stop) => StartCheck(stop)
       case ShutdownEnter => ShutdownFlag
       case ForEnter(k) => ForLookup(k)
       case SyncEnter => SyncScan(w.informers.Keys, w.started, map[]))
    case Unlock =>
      (match pc
       case StartExit(_) => Idle
       case ShutdownExit => ShutdownWait
       case ForExit(k, informer) => ForReturned(k, informer)
       case SyncExit(seen, snapshot) => SyncPoll(snapshot.Keys, seen, snapshot, map[]))
    case CheckFlag => if w.shuttingDown then StartExit(false) else StartLoop(pc.stop, w.informers.Keys)
    case Visit(k) =>
      if k in w.started then StartLoop(pc.stop, pc.todo - {k}) else StartAdded(pc.stop, pc.todo - {k}, k)
    case Launch => StartLaunched(pc.stop, pc.todo, pc.kind)
    case Mark => StartLoop(pc.stop, pc.todo)
    case EndLoop => StartExit(true)
    case SetFlag => ShutdownExit
    case WaitReturns => ShutdownReturned
    case Lookup => if pc.kind in w.informers then ForExit(pc.kind, w.informers[pc.kind]) else ForNew(pc.kind)
    case Create(informer) => ForExit(pc.kind, informer)
    case Scan(k) =>
      SyncScan(pc.todo - {k}, pc.seen, if k in w.started then pc.snapshot[k := w.informers[k]] else pc.snapshot)
    case EndScan => SyncExit(pc.seen, pc.snapshot)
    case Poll(k, synced) => SyncPoll(pc.todo - {k}, pc.seen, pc.snapshot, pc.result[k := synced])
    case EndPoll => SyncReturned(pc.seen, pc.result)
  }

  /** What the statement does to the shared state. */
  function Effect(w: World, t: Thread, pc: Pc, op: Op): World
    requires EnabledOp(w, pc, op)
  {
    match op
    case Lock => w.(lock := Some(t))
    case Unlock => w.(lock := None)
    case Visit(k) => if k in w.started then w else w.(wg := w.wg + 1)
    case Launch => w.(goroutines := w.goroutines + [Goroutine(pc.kind, w.informers[pc.kind], pc.stop, Spawned)])
    case Mark => w.(started := w.started + {pc.kind})
    case SetFlag => w.(shuttingDown := true)
    case Create(informer) => w.(informers := w.informers[pc.kind := informer], created := w.created + [pc.kind])
    case _ => w
  }

  function Phased(gs: seq<Goroutine>, i: nat, phase: Phase): seq<Goroutine>
    requires i < |gs|
  {
    gs[i := gs[i].(phase := phase)]
  }

  predicate Enabled(w: World, e: Event) {
    match e
    case By(t, op) => EnabledOp(w, PcOf(w, t), op)
    case GoRun(i) => i < |w.goroutines| && w.goroutines[i].phase == Spawned
    case GoReturn(i) => i < |w.goroutines| && w.goroutines[i].phase == Running
    case GoDone(i) => i < |w.goroutines| && w.goroutines[i].phase == Returned
    case Close(_) => true
  }

  function Do(w: World, e: Event): World
    requires Enabled(w, e)
  {
    match e
    case By(t, op) =>
      var pc := PcOf(w, t);
      Effect(w, t, pc, op).(pcs := w.pcs[t := NextPc(w, pc, op)])
    case GoRun(i) => w.(goroutines := Phased(w.goroutines, i, Running))
    case GoReturn(i) => w.(goroutines := Phased(w.goroutines, i, Returned))
    case GoDone(i) => w.(goroutines := Phased(w.goroutines, i, Done), wg := w.wg - 1)
    case Close(channel) => w.(closed := w.closed + {channel})
  }

  /** A new factory. */
  const NEW_WORLD := World(map[], {}, 0, false, None, map[], [], [], {})

  predicate Init(w: World) {
    w == NEW_WORLD
  }

  // ----- the invariant

  /** Goroutines that have not called Done yet. */
  function Unfinished(gs: seq<Goroutine>): nat {
    if gs == [] then 0
    else Unfinished(gs[..|gs| - 1]) + if gs[|gs| - 1].phase == Done then 0 else 1
  }

  /** One if some thread has called Add for a goroutine it has not launched yet. */
  function Pending(w: World): nat {
    if w.lock.Some? && PcOf(w, w.lock.value).StartAdded? then 1 else 0
  }

  ghost predicate LockInv(w: World) {
    forall t :: Holding(PcOf(w, t)) <==> w.lock == Some(t)
  }

  ghost predicate FlagInv(w: World) {
    && (w.shuttingDown ==> forall t :: !Starting(PcOf(w, t)))
    && (forall t :: var pc := PcOf(w, t);
          pc.ShutdownExit? || pc.ShutdownWait? || pc.ShutdownReturned? ==> w.shuttingDown)
    && (forall t :: PcOf(w, t).ShutdownReturned? ==> Unfinished(w.goroutines) == 0)
  }

  /** The kinds that have a goroutine: the started ones, and one more between launching a
      goroutine and recording it. */
  function LaunchedKinds(w: World): set<Kind> {
    w.started + if w.lock.Some? && PcOf(w, w.lock.value).StartLaunched? then {PcOf(w, w.lock.value).kind} else {}
  }

  /** Exactly one goroutine for each of these kinds, running the registered informer. */
  ghost predicate OnePerKind(informers: map<Kind, Informer>, kinds: set<Kind>, gs: seq<Goroutine>) {
    && (forall i :: 0 <= i < |gs| ==>
          gs[i].kind in informers && gs[i].informer == informers[gs[i].kind] && gs[i].kind in kinds)
    && (forall i, j :: 0 <= i < j < |gs| ==> gs[i].kind != gs[j].kind)
    && (forall k :: k in kinds ==> exists i :: 0 <= i < |gs| && gs[i].kind == k)
  }

  ghost predicate RegistryInv(informers: map<Kind, Informer>, started: set<Kind>, created: seq<Kind>) {
    && started <= informers.Keys
    && (forall k :: k in created <==> k in informers)
    && (forall i, j :: 0 <= i < j < |created| ==> created[i] != created[j])
  }

  /** The snapshot holds the registered informers of its kinds. */
  ghost predicate Registered(snapshot: map<Kind, Informer>, informers: map<Kind, Informer>) {
    forall k :: k in snapshot ==> k in informers && informers[k] == snapshot[k]
  }

  /** What a thread in the middle of a call may rely on. */
  ghost predicate ThreadInv(informers: map<Kind, Informer>, started: set<Kind>, pc: Pc) {
    match pc
    case StartLoop(_, todo) => todo <= informers.Keys && informers.Keys - todo <= started
    case StartAdded(_, todo, k) =>
      && todo <= informers.Keys && k in informers && k !in started
      && informers.Keys - todo <= started + {k}
    case StartLaunched(_, todo, k) =>
      && todo <= informers.Keys && k in informers && k !in started
      && informers.Keys - todo <= started + {k}
    case StartExit(ran) => ran ==> informers.Keys <= started
    case ForNew(k) => k !in informers
    case ForExit(k, informer) => k in informers && informers[k] == informer
    case ForReturned(k, informer) => k in informers && informers[k] == informer
    case SyncScan(todo, seen, snapshot) =>
      && seen == started && todo <= informers.Keys && snapshot.Keys == seen - todo
      && Registered(snapshot, informers)
    case SyncExit(seen, snapshot) => seen == started && snapshot.Keys == seen && Registered(snapshot, informers)
    case SyncPoll(todo, seen, snapshot, result) =>
      snapshot.Keys == seen && todo <= seen && result.Keys == seen - todo && Registered(snapshot, informers)
    case SyncReturned(seen, result) => result.Keys == seen
    case _ => true
  }

  ghost predicate Inv(w: World) {
    && w.wg == Unfinished(w.goroutines) + Pending(w)
    && LockInv(w) && FlagInv(w)
    && OnePerKind(w.informers, LaunchedKinds(w), w.goroutines)
    && RegistryInv(w.informers, w.started, w.created)
    && forall t :: ThreadInv(w.informers, w.started, PcOf(w, t))
  }
}
