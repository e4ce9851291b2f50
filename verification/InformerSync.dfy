/** What WaitForCacheSync returns, told by the events of the run. */
module InformerSync {
  import opened Options
  import opened InformerProtocol
  import opened InformerSafety
  import opened InformerRuns

  predicate Begins(op: Op) {
    op.BeginStart? || op.BeginShutdown? || op.BeginFor? || op.BeginSync?
  }

  predicate Syncing(pc: Pc) {
    pc.SyncEnter? || pc.SyncScan? || pc.SyncExit? || pc.SyncPoll? || pc.SyncReturned?
  }

  /** The answers the call has collected. */
  function Answers(pc: Pc): map<Kind, bool> {
    match pc
    case SyncPoll(_, _, _, result) => result
    case SyncReturned(_, result) => result
    case _ => map[]
  }

  /** The event is the question for one kind, answered this way. */
  predicate IsAnswer(e: Event, t: Thread, k: Kind, b: bool) {
    e == By(t, Poll(k, b))
  }

  // ----- one step

  lemma SyncOp(w: World, pc: Pc, op: Op)
    requires EnabledOp(w, pc, op) && ThreadInv(w.informers, w.started, pc)
    ensures var pc' := NextPc(w, pc, op);
            Syncing(pc') ==>
              && (op.BeginSync? ==> pc' == SyncEnter)
              && (!op.BeginSync? ==> Syncing(pc) && !Begins(op))
              && Answers(pc') == (if op.Poll? then Answers(pc)[op.kind := op.synced]
                                  else if op.BeginSync? then map[] else Answers(pc))
              && (op.Lock? ==> SeenBy(pc') == Some(w.started))
              && (!op.Lock? && !op.BeginSync? ==> SeenBy(pc') == SeenBy(pc))
              && (pc'.SyncPoll? ==> op.Unlock? || (op.Poll? && pc.SyncPoll? && pc'.snapshot == pc.snapshot))
              && (pc'.SyncReturned? ==> pc.SyncPoll?)
    ensures op.Poll? ==>
              && pc.SyncPoll? && op.kind !in Answers(pc) && op.kind in pc.snapshot && op.kind in w.informers
              && pc.snapshot[op.kind] == w.informers[op.kind]
  {}

  // ----- the history of a call

  /** The current call of the thread began at event s, before n. */
  ghost predicate CallSince(es: Events, s: nat, n: nat, t: Thread) {
    && s < n && es(s) == By(t, BeginSync)
    && forall j :: s < j < n && es(j).By? && es(j).t == t ==> !Begins(es(j).op)
  }

  /** Between s and n the thread asked about the kind and got this answer. */
  ghost predicate Asked(es: Events, s: nat, n: nat, t: Thread, k: Kind, b: bool) {
    exists i :: s < i < n && IsAnswer(es(i), t, k, b)
  }

  predicate Recorded(answers: map<Kind, bool>, k: Kind, b: bool) {
    k in answers && answers[k] == b
  }

  /** The answers are exactly those to the questions of the call. */
  ghost predicate AnsweredAs(es: Events, s: nat, n: nat, t: Thread, answers: map<Kind, bool>) {
    forall k, b :: Asked(es, s, n, t, k, b) <==> Recorded(answers, k, b)
  }

  ghost predicate SnapshotEnded(es: Events, s: nat, n: nat, t: Thread) {
    exists u :: s < u < n && es(u) == By(t, Unlock)
  }

  /** The question follows the Unlock that ends the snapshot of the call, and is put to the
      registered informer, which the snapshot holds. */
  ghost predicate GoodQuestion(ws: States, es: Events, s: nat, i: nat, t: Thread, k: Kind) {
    && SnapshotEnded(es, s, i, t)
    && PcOf(ws(i), t).SyncPoll? && k in PcOf(ws(i), t).snapshot && k in ws(i).informers
    && PcOf(ws(i), t).snapshot[k] == ws(i).informers[k]
  }

  ghost predicate GoodQuestions(ws: States, es: Events, s: nat, n: nat, t: Thread) {
    forall i, k, b :: s < i < n && IsAnswer(es(i), t, k, b) ==> GoodQuestion(ws, es, s, i, t, k)
  }

  /** The lock was taken in this call when exactly these kinds were started. */
  ghost predicate SeenSince(ws: States, es: Events, s: nat, n: nat, t: Thread, seen: Option<set<Kind>>) {
    exists l :: s < l < n && es(l) == By(t, Lock) && seen == Some(ws(l).started)
  }

  ghost predicate History(ws: States, es: Events, s: nat, n: nat, t: Thread) {
    var pc := PcOf(ws(n), t);
    && CallSince(es, s, n, t)
    && AnsweredAs(es, s, n, t, Answers(pc))
    && GoodQuestions(ws, es, s, n, t)
    && (!pc.SyncEnter? ==> SeenSince(ws, es, s, n, t, SeenBy(pc)))
    && (pc.SyncPoll? || pc.SyncReturned? ==> SnapshotEnded(es, s, n, t))
  }

  lemma CallStarts(ws: States, es: Events, n: nat, t: Thread)
    requires es(n) == By(t, BeginSync) && PcOf(ws(n + 1), t) == SyncEnter
    ensures History(ws, es, n, n + 1, t)
  {}

  lemma AskedMore(es: Events, s: nat, n: nat, t: Thread, k: Kind, b: bool)
    requires s < n
    ensures Asked(es, s, n + 1, t, k, b) <==> Asked(es, s, n, t, k, b) || IsAnswer(es(n), t, k, b)
  {}

  lemma AnsweredMore(es: Events, s: nat, n: nat, t: Thread, answers: map<Kind, bool>, answers': map<Kind, bool>)
    requires s < n && AnsweredAs(es, s, n, t, answers)
    requires if es(n).By? && es(n).t == t && es(n).op.Poll? then
               es(n).op.kind !in answers && answers' == answers[es(n).op.kind := es(n).op.synced]
             else answers' == answers
    ensures AnsweredAs(es, s, n + 1, t, answers')
  {
    forall k, b
      ensures Asked(es, s, n + 1, t, k, b) <==> Recorded(answers', k, b)
    {
      AskedMore(es, s, n, t, k, b);
      assert Asked(es, s, n, t, k, b) <==> Recorded(answers, k, b);
    }
  }

  lemma QuestionsMore(ws: States, es: Events, s: nat, n: nat, t: Thread)
    requires s < n && GoodQuestions(ws, es, s, n, t)
    requires forall k, b :: IsAnswer(es(n), t, k, b) ==> GoodQuestion(ws, es, s, n, t, k)
    ensures GoodQuestions(ws, es, s, n + 1, t)
  {
    hide GoodQuestion;
  }

  lemma SeenMore(ws: States, es: Events, s: nat, n: nat, t: Thread, seen: Option<set<Kind>>)
    requires SeenSince(ws, es, s, n, t, seen)
    ensures SeenSince(ws, es, s, n + 1, t, seen)
  {}

  lemma EndedMore(es: Events, s: nat, n: nat, t: Thread)
    requires SnapshotEnded(es, s, n, t)
    ensures SnapshotEnded(es, s, n + 1, t)
  {}

  lemma CallMore(es: Events, s: nat, n: nat, t: Thread)
    requires CallSince(es, s, n, t) && (es(n).By? && es(n).t == t ==> !Begins(es(n).op))
    ensures CallSince(es, s, n + 1, t)
  {
    hide Begins;
  }

  /** A step of somebody else. */
  lemma OthersStep(ws: States, es: Events, s: nat, n: nat, t: Thread)
    requires History(ws, es, s, n, t) && !(es(n).By? && es(n).t == t) && PcOf(ws(n + 1), t) == PcOf(ws(n), t)
    ensures History(ws, es, s, n + 1, t)
  {
    var pc := PcOf(ws(n), t);
    CallMore(es, s, n, t);
    AnsweredMore(es, s, n, t, Answers(pc), Answers(pc));
    QuestionsMore(ws, es, s, n, t);
    if !pc.SyncEnter? {
      SeenMore(ws, es, s, n, t, SeenBy(pc));
    }
    if pc.SyncPoll? || pc.SyncReturned? {
      EndedMore(es, s, n, t);
    }
    hide AnsweredAs, GoodQuestions, SeenSince, SnapshotEnded, Answers, SeenBy, CallSince;
  }

  lemma OwnQuestion(ws: States, es: Events, s: nat, n: nat, t: Thread)
    requires History(ws, es, s, n, t) && Inv(ws(n)) && es(n).By? && es(n).t == t
    requires EnabledOp(ws(n), PcOf(ws(n), t), es(n).op)
    ensures forall k, b :: IsAnswer(es(n), t, k, b) ==> GoodQuestion(ws, es, s, n, t, k)
    ensures es(n).op.Poll? ==> es(n).op.kind !in Answers(PcOf(ws(n), t))
  {
    assert ThreadInv(ws(n).informers, ws(n).started, PcOf(ws(n), t));
    SyncOp(ws(n), PcOf(ws(n), t), es(n).op);
    hide Inv, EnabledOp, NextPc, ThreadInv, SnapshotEnded, CallSince, AnsweredAs, GoodQuestions, SeenSince;
  }

  /** A step of the thread itself, within the call. */
  lemma OwnSyncStep(ws: States, es: Events, s: nat, n: nat, t: Thread)
    requires History(ws, es, s, n, t) && Inv(ws(n)) && es(n).By? && es(n).t == t && !es(n).op.BeginSync?
    requires EnabledOp(ws(n), PcOf(ws(n), t), es(n).op)
    requires PcOf(ws(n + 1), t) == NextPc(ws(n), PcOf(ws(n), t), es(n).op) && Syncing(PcOf(ws(n + 1), t))
    ensures History(ws, es, s, n + 1, t)
  {
    var pc, pc', op := PcOf(ws(n), t), PcOf(ws(n + 1), t), es(n).op;
    OwnQuestion(ws, es, s, n, t);
    assert ThreadInv(ws(n).informers, ws(n).started, pc);
    SyncOp(ws(n), pc, op);
    hide Inv, EnabledOp, NextPc, ThreadInv, GoodQuestion, Begins;
    CallMore(es, s, n, t);
    AnsweredMore(es, s, n, t, Answers(pc), Answers(pc'));
    QuestionsMore(ws, es, s, n, t);
    hide AnsweredAs, GoodQuestions, Answers, CallSince;
    if op.Lock? {
      assert s < n < n + 1 && es(n) == By(t, Lock);
      assert SeenSince(ws, es, s, n + 1, t, SeenBy(pc'));
    } else if !pc'.SyncEnter? {
      SeenMore(ws, es, s, n, t, SeenBy(pc'));
    }
    hide SeenSince, SeenBy;
    if pc'.SyncPoll? || pc'.SyncReturned? {
      if op.Unlock? {
        assert s < n < n + 1 && es(n) == By(t, Unlock);
      } else {
        EndedMore(es, s, n, t);
      }
    }
  }

  lemma {:induction false} SyncHistory(ws: States, es: Events, n: nat, t: Thread) returns (s: nat)
    requires IsRun(ws, es) && Syncing(PcOf(ws(n), t))
    ensures History(ws, es, s, n, t)
  {
    AlwaysInv(ws, es, 0);
    assert Init(ws(0));
    assert n > 0;
    RunStep(ws, es, n - 1);
    AlwaysInv(ws, es, n - 1);
    var w, e := ws(n - 1), es(n - 1);
    hide IsRun, Inv, History;
    if e.By? && e.t == t {
      assert EnabledOp(w, PcOf(w, t), e.op) && PcOf(ws(n), t) == NextPc(w, PcOf(w, t), e.op);
      OwnSyncShape(w, t, e.op);
      hide EnabledOp, NextPc, Effect;
      if e.op.BeginSync? {
        s := n - 1;
        CallStarts(ws, es, n - 1, t);
      } else {
        s := SyncHistory(ws, es, n - 1, t);
        OwnSyncStep(ws, es, s, n - 1, t);
      }
    } else {
      assert PcOf(ws(n), t) == PcOf(w, t);
      s := SyncHistory(ws, es, n - 1, t);
      OthersStep(ws, es, s, n - 1, t);
    }
  }

  lemma OwnSyncShape(w: World, t: Thread, op: Op)
    requires Inv(w) && EnabledOp(w, PcOf(w, t), op) && Syncing(NextPc(w, PcOf(w, t), op))
    ensures op.BeginSync? ==> NextPc(w, PcOf(w, t), op) == SyncEnter
    ensures !op.BeginSync? ==> Syncing(PcOf(w, t))
  {
    assert ThreadInv(w.informers, w.started, PcOf(w, t));
    SyncOp(w, PcOf(w, t), op);
    hide Inv, EnabledOp, NextPc;
  }

  /** When WaitForCacheSync has returned, its result holds a kind exactly if it was started when
      this call had the lock, and for each of them exactly the answer that this call got when it
      asked the registered informer, after the snapshot. */
  lemma SyncReportsAnswers(ws: States, es: Events, n: nat, t: Thread) returns (s: nat, l: nat)
    requires IsRun(ws, es) && PcOf(ws(n), t).SyncReturned?
    ensures s < l < n && CallSince(es, s, n, t) && es(l) == By(t, Lock)
    ensures PcOf(ws(n), t).result.Keys == ws(l).started
    ensures forall k :: k in PcOf(ws(n), t).result ==>
              exists i :: s < i < n && IsAnswer(es(i), t, k, PcOf(ws(n), t).result[k])
                          && GoodQuestion(ws, es, s, i, t, k)
    ensures forall i, k, b :: s < i < n && IsAnswer(es(i), t, k, b) ==>
              k in PcOf(ws(n), t).result && PcOf(ws(n), t).result[k] == b
  {
    s := SyncHistory(ws, es, n, t);
    AlwaysInv(ws, es, n);
    var pc := PcOf(ws(n), t);
    assert ThreadInv(ws(n).informers, ws(n).started, pc);
    hide IsRun, Inv, GoodQuestion, CallSince;
    l :| s < l < n && es(l) == By(t, Lock) && SeenBy(pc) == Some(ws(l).started);
    forall k | k in pc.result
      ensures exists i :: s < i < n && IsAnswer(es(i), t, k, pc.result[k]) && GoodQuestion(ws, es, s, i, t, k)
    {
      assert Recorded(pc.result, k, pc.result[k]);
      var i :| s < i < n && IsAnswer(es(i), t, k, pc.result[k]);
    }
    forall i, k, b | s < i < n && IsAnswer(es(i), t, k, b)
      ensures k in pc.result && pc.result[k] == b
    {
      assert Asked(es, s, n, t, k, b);
    }
  }
}
