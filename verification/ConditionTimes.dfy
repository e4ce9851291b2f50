/** The lookups of a list of conditions, and the times that are stored with them. */
module ConditionTimes {
  import opened Options
  import opened Conditions
  import opened ConditionRuns

  // ----- the first condition of a type

  ghost predicate FirstOfKind(cs: seq<KameletCondition>, i: int, kind: string) {
    0 <= i < |cs| && cs[i].kind == kind && forall j :: 0 <= j < i ==> cs[j].kind != kind
  }

  lemma {:induction false} FindMeaning(cs: seq<KameletCondition>, kind: string)
    ensures match Find(cs, kind)
            case None => forall i :: 0 <= i < |cs| ==> cs[i].kind != kind
            case Some(c) => exists i :: FirstOfKind(cs, i, kind) && cs[i] == c
  {
    if cs != [] {
      if cs[0].kind == kind {
        assert FirstOfKind(cs, 0, kind);
      } else {
        var rest := cs[1..];
        FindMeaning(rest, kind);
        assert forall j :: 0 < j < |cs| ==> cs[j] == rest[j - 1];
        if Find(rest, kind).Some? {
          var i :| FirstOfKind(rest, i, kind) && rest[i] == Find(rest, kind).value;
          assert FirstOfKind(cs, i + 1, kind);
        }
      }
    }
  }

  /** A condition changes nothing exactly when the first one of its type has its status and reason;
      otherwise an equal status hands on its transition time. */
  lemma AgainstTheFirst(cs: seq<KameletCondition>, c: KameletCondition, i: int)
    requires FirstOfKind(cs, i, c.kind)
    ensures Redundant(cs, c) <==> cs[i].status == c.status && cs[i].reason == c.reason
    ensures var s := Carried(cs, c);
            && s.lastTransitionTime == (if cs[i].status == c.status then cs[i].lastTransitionTime
                                        else c.lastTransitionTime)
            && SameButTimes(s, c) && s.lastUpdateTime == c.lastUpdateTime
  {
    FindMeaning(cs, c.kind);
  }

  // ----- the times

  predicate SameButTimes(s: KameletCondition, c: KameletCondition) {
    s.kind == c.kind && s.status == c.status && s.reason == c.reason && s.message == c.message
  }

  /** s is c with its unset times taken from the clock, and nothing else changed. */
  predicate FilledIn(s: KameletCondition, c: KameletCondition, now: Reading) {
    && SameButTimes(s, c)
    && s.lastUpdateTime == (if c.lastUpdateTime == 0 then now.update else c.lastUpdateTime)
    && s.lastTransitionTime == (if c.lastTransitionTime == 0 then now.transition else c.lastTransitionTime)
  }

  /** What a call works with: its conditions one by one, each with the readings taken for it. */
  lemma StampMeaning(conds: seq<KameletCondition>, clock: seq<Reading>)
    requires |conds| == |clock|
    ensures var s := StampAll(conds, clock);
            |s| == |conds| && forall i :: 0 <= i < |conds| ==> FilledIn(s[i], conds[i], clock[i])
  {}

  predicate Timed(c: KameletCondition) {
    c.lastUpdateTime != 0 && c.lastTransitionTime != 0
  }

  predicate AllTimed(cs: seq<KameletCondition>) {
    forall i :: 0 <= i < |cs| ==> Timed(cs[i])
  }

  lemma {:induction false} WithoutKeepsTimes(cs: seq<KameletCondition>, kind: string)
    requires AllTimed(cs)
    ensures AllTimed(Without(cs, kind))
  {
    if cs != [] {
      WithoutKeepsTimes(cs[..|cs| - 1], kind);
    }
  }

  lemma UpsertKeepsTimes(cs: seq<KameletCondition>, c: KameletCondition)
    requires AllTimed(cs) && Timed(c)
    ensures AllTimed(Upsert(cs, c))
  {
    WithoutKeepsTimes(cs, c.kind);
    FindMeaning(cs, c.kind);
  }

  lemma {:induction false} SetAllKeepsTimes(cs: seq<KameletCondition>, updates: seq<KameletCondition>)
    requires AllTimed(cs) && AllTimed(updates)
    ensures AllTimed(SetAll(cs, updates))
    decreases |updates|
  {
    hide Redundant, Upsert, Timed;
    if updates != [] && !Redundant(cs, updates[0]) {
      UpsertKeepsTimes(cs, updates[0]);
      SetAllKeepsTimes(Upsert(cs, updates[0]), updates[1..]);
    }
  }

  lemma UpdatesAreTimed(a: Act)
    ensures AllTimed(Updates(a))
  {
    if a.Set? {
      StampMeaning(a.conditions, a.clock);
      hide StampAll;
    }
  }

  /** Whatever the calls were and whatever times they left unset, each stored condition has both. */
  lemma {:induction false} EveryTimeIsSet(acts: seq<Act>)
    ensures AllTimed(RunActs(acts))
  {
    hide Updates, SetAll, Without, AllTimed;
    if acts == [] {
      NothingUntimed();
    } else {
      var before, a := RunActs(acts[..|acts| - 1]), acts[|acts| - 1];
      EveryTimeIsSet(acts[..|acts| - 1]);
      if a.Remove? {
        WithoutKeepsTimes(before, a.kind);
      } else {
        UpdatesAreTimed(a);
        SetAllKeepsTimes(before, Updates(a));
      }
    }
  }

  lemma NothingUntimed()
    ensures AllTimed([])
  {}

  /** A condition handed over without times, on a status without conditions, is stored with the
      two readings of the clock. */
  lemma UnsetTimesAreStamped(now: Reading)
    ensures var c := KameletCondition("Ready", "True", 0, 0, "R", "m");
            RunActs([Set([c], [now])]) == [KameletCondition("Ready", "True", now.update, now.transition, "R", "m")]
  {
    var c := KameletCondition("Ready", "True", 0, 0, "R", "m");
    var s := KameletCondition("Ready", "True", now.update, now.transition, "R", "m");
    var a: Act := Set([c], [now]);
    assert [a][..0] == [];
    assert StampAll([c], [now]) == [s];
    assert SetAll([], [s]) == [s] by {
      assert Upsert([], s) == [s];
      assert [s][1..] == [];
      assert SetAll([s], []) == [s];
    }
    assert RunActs([]) == [];
  }
}
