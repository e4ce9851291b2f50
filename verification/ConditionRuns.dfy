/** Runs of all the calls that change a list of conditions, with several conditions in one call,
    times of the caller's choice, and removals. */
module ConditionRuns {
  import opened Options
  import opened GoHeap
  import opened Conditions
  import opened ConditionHistory

  datatype AnyAct =
    | Set(conditions: seq<KameletCondition>, clock: seq<Reading>)
    | SetOne(call: Call)
    | SetError(kind: string, reason: string, error: string, now: Reading)
    | Remove(kind: string)

  /** The clock answers for every condition of a call. */
  type Act = a: AnyAct | a.Set? ==> |a.conditions| == |a.clock| witness Remove("")

  /** The conditions a call hands over, with their times filled in. */
  function Updates(a: Act): seq<KameletCondition> {
    match a
    case Set(conditions, clock) => StampAll(conditions, clock)
    case SetOne(call) => [ConditionOf(call)]
    case SetError(kind, reason, error, now) =>
      [KameletCondition(kind, "False", now.update, now.transition, reason, error)]
    case Remove(_) => []
  }

  function RunActs(acts: seq<Act>): seq<KameletCondition> {
    if acts == [] then []
    else
      var before, a := RunActs(acts[..|acts| - 1]), acts[|acts| - 1];
      if a.Remove? then Without(before, a.kind) else SetAll(before, Updates(a))
  }

  // ----- what took effect

  datatype Edit = Put(condition: KameletCondition) | Drop(kind: string)

  function KindOf(e: Edit): string {
    match e
    case Put(condition) => condition.kind
    case Drop(kind) => kind
  }

  function Puts(cs: seq<KameletCondition>): seq<Edit> {
    seq(|cs|, i requires 0 <= i < |cs| => Put(cs[i]))
  }

  /** The edits of a run in their order: of each call the conditions that are applied, and every
      removal. */
  function Effects(acts: seq<Act>): seq<Edit> {
    if acts == [] then []
    else
      var front, a := acts[..|acts| - 1], acts[|acts| - 1];
      Effects(front) +
        if a.Remove? then [Drop(a.kind)]
        else Puts(Updates(a)[..AppliedCount(RunActs(front), Updates(a))])
  }

  function Edited(edits: seq<Edit>): seq<KameletCondition> {
    if edits == [] then []
    else
      var before := Edited(edits[..|edits| - 1]);
      match edits[|edits| - 1]
      case Put(c) => Upsert(before, c)
      case Drop(kind) => Without(before, kind)
  }

  lemma EditedOneMore(edits: seq<Edit>, last: Edit)
    ensures last.Put? ==> Edited(edits + [last]) == Upsert(Edited(edits), last.condition)
    ensures last.Drop? ==> Edited(edits + [last]) == Without(Edited(edits), last.kind)
  {
    hide Upsert, Without;
    assert (edits + [last])[..|edits|] == edits;
  }

  lemma {:induction false} EditedPuts(edits: seq<Edit>, cs: seq<KameletCondition>)
    ensures Edited(edits + Puts(cs)) == UpsertAll(Edited(edits), cs)
  {
    hide Edited, Upsert;
    if cs == [] {
      assert edits + Puts(cs) == edits;
    } else {
      var n := |cs| - 1;
      EditedPuts(edits, cs[..n]);
      EditedOneMore(edits + Puts(cs[..n]), Put(cs[n]));
      assert edits + Puts(cs) == edits + Puts(cs[..n]) + [Put(cs[n])];
    }
  }

  /** A run leaves what its edits make. */
  lemma {:induction false} RunIsEdited(acts: seq<Act>)
    ensures RunActs(acts) == Edited(Effects(acts))
  {
    if acts != [] {
      var front, a := acts[..|acts| - 1], acts[|acts| - 1];
      RunIsEdited(front);
      hide Upsert, Without;
      if a.Remove? {
        EditedOneMore(Effects(front), Drop(a.kind));
      } else {
        hide Updates;
        var n := SetAllIsPrefix(RunActs(front), Updates(a));
        EditedPuts(Effects(front), Updates(a)[..n]);
      }
    }
  }

  // ----- the order of the list

  /** Edit i puts a condition of a type that no later edit puts or drops. */
  predicate LastTouch(edits: seq<Edit>, i: nat) {
    i < |edits| && edits[i].Put? && forall j :: i < j < |edits| ==> KindOf(edits[j]) != KindOf(edits[i])
  }

  /** idx holds the places of the conditions' last edits. */
  ghost predicate ListedBy(edits: seq<Edit>, cs: seq<KameletCondition>, idx: seq<nat>) {
    && |idx| == |cs| && Increasing(idx)
    && (forall k :: 0 <= k < |idx| ==> LastTouch(edits, idx[k]) && KindOf(edits[idx[k]]) == cs[k].kind)
    && (forall i: nat :: LastTouch(edits, i) ==> i in idx)
  }

  lemma LastTouchOfLonger(edits: seq<Edit>, last: Edit, i: nat)
    ensures LastTouch(edits + [last], i) <==>
            if i == |edits| then last.Put? else LastTouch(edits, i) && KindOf(edits[i]) != KindOf(last)
  {
    hide KindOf;
    var all := edits + [last];
    assert forall j :: 0 <= j < |edits| ==> all[j] == edits[j];
    if i < |edits| && LastTouch(all, i) {
      assert KindOf(all[|edits|]) != KindOf(all[i]);
    }
  }

  /** The places of the conditions that one more edit keeps. */
  ghost predicate KeptBy(edits: seq<Edit>, last: Edit, rest: seq<KameletCondition>, places: seq<nat>) {
    && |places| == |rest| && Increasing(places + [|edits|])
    && (forall k :: 0 <= k < |places| ==>
          && LastTouch(edits, places[k]) && KindOf(edits[places[k]]) == rest[k].kind != KindOf(last))
    && (forall i: nat :: LastTouch(edits, i) && KindOf(edits[i]) != KindOf(last) ==> i in places)
  }

  lemma KeptByOneMore(edits: seq<Edit>, last: Edit, cs: seq<KameletCondition>, idx: seq<nat>)
    returns (places: seq<nat>)
    requires ListedBy(edits, cs, idx) && DistinctKinds(cs)
    ensures KeptBy(edits, last, Without(cs, KindOf(last)), places) && DistinctKinds(Without(cs, KindOf(last)))
  {
    var kept;
    kept, places := KeptPlaces(cs, KindOf(last), idx, |edits|);
    hide Without, KindOf, LastTouch, Increasing;
    forall i: nat | LastTouch(edits, i) && KindOf(edits[i]) != KindOf(last)
      ensures i in places
    {
      var k: nat :| k < |idx| && idx[k] == i;
      assert k in kept;
      var l: nat :| l < |kept| && kept[l] == k;
      assert places[l] == i;
    }
  }

  lemma ListedAfterDrop(edits: seq<Edit>, last: Edit, rest: seq<KameletCondition>, places: seq<nat>)
    requires last.Drop? && KeptBy(edits, last, rest, places)
    ensures ListedBy(edits + [last], rest, places)
  {
    IncreasingFront(places, |edits|);
    hide KindOf, Increasing;
    forall k | 0 <= k < |places|
      ensures LastTouch(edits + [last], places[k]) && KindOf((edits + [last])[places[k]]) == rest[k].kind
    {
      LastTouchOfLonger(edits, last, places[k]);
    }
    forall i: nat | LastTouch(edits + [last], i)
      ensures i in places
    {
      LastTouchOfLonger(edits, last, i);
    }
  }

  lemma IncreasingFront(places: seq<nat>, n: nat)
    requires Increasing(places + [n])
    ensures Increasing(places)
  {
    assert forall k :: 0 <= k < |places| ==> places[k] == (places + [n])[k];
  }

  lemma ListedAfterPut(
      edits: seq<Edit>, last: Edit, rest: seq<KameletCondition>, places: seq<nat>, c: KameletCondition)
    requires last.Put? && KeptBy(edits, last, rest, places) && c.kind == KindOf(last)
    ensures ListedBy(edits + [last], rest + [c], places + [|edits|])
  {
    hide KindOf, Increasing;
    forall k | 0 <= k < |places|
      ensures LastTouch(edits + [last], places[k]) && KindOf((edits + [last])[places[k]]) == rest[k].kind
    {
      LastTouchOfLonger(edits, last, places[k]);
    }
    LastTouchOfLonger(edits, last, |edits|);
    forall i: nat | LastTouch(edits + [last], i)
      ensures i in places + [|edits|]
    {
      LastTouchOfLonger(edits, last, i);
    }
  }

  lemma {:induction false} EditedIsListed(edits: seq<Edit>) returns (idx: seq<nat>)
    ensures ListedBy(edits, Edited(edits), idx) && DistinctKinds(Edited(edits))
  {
    if edits == [] {
      idx := [];
    } else {
      var front, last := edits[..|edits| - 1], edits[|edits| - 1];
      assert edits == front + [last];
      hide Edited, ListedBy;
      var before := EditedIsListed(front);
      idx := ListedOneMore(front, last, before);
    }
  }

  lemma ListedOneMore(front: seq<Edit>, last: Edit, before: seq<nat>) returns (idx: seq<nat>)
    requires ListedBy(front, Edited(front), before) && DistinctKinds(Edited(front))
    ensures ListedBy(front + [last], Edited(front + [last]), idx) && DistinctKinds(Edited(front + [last]))
  {
    var cs := Edited(front);
    EditedOneMore(front, last);
    hide Edited, Carried, ListedBy, Without;
    idx := KeptByOneMore(front, last, cs, before);
    var rest := Without(cs, KindOf(last));
    assert forall k :: 0 <= k < |rest| ==> rest[k].kind != KindOf(last);
    hide KeptBy;
    if last.Put? {
      CarriedKind(cs, last.condition);
      ListedAfterPut(front, last, rest, idx, Carried(cs, last.condition));
      idx := idx + [|front|];
    } else {
      ListedAfterDrop(front, last, rest, idx);
    }
  }

  /** After every run, the types in the list are pairwise distinct, and the conditions stand in
      the order of the last effective update of their type; the list holds exactly those types
      that were put and not removed since. */
  lemma RunActsIsOrdered(acts: seq<Act>) returns (idx: seq<nat>)
    ensures DistinctKinds(RunActs(acts)) && ListedBy(Effects(acts), RunActs(acts), idx)
  {
    RunIsEdited(acts);
    idx := EditedIsListed(Effects(acts));
  }

  // ----- what a condition tells

  /** The effective updates of a type since its last removal. */
  function PutsFor(edits: seq<Edit>, kind: string): seq<KameletCondition> {
    if edits == [] then []
    else
      var earlier := PutsFor(edits[..|edits| - 1], kind);
      match edits[|edits| - 1]
      case Put(c) => if c.kind == kind then earlier + [c] else earlier
      case Drop(k) => if k == kind then [] else earlier
  }

  function StatusOf(c: KameletCondition): ConditionStatus { c.status }

  /** The stored condition of a type is its last effective update since its last removal, with
      the transition time of the first one of the last run of one status. */
  ghost predicate Tells(q: seq<KameletCondition>, found: Option<KameletCondition>, s: nat) {
    if q == [] then found == None
    else
      && OpensLastRun(q, StatusOf, s)
      && found == Some(q[|q| - 1].(lastTransitionTime := q[s].lastTransitionTime))
  }

  lemma TellsOneMore(q: seq<KameletCondition>, cs: seq<KameletCondition>, c: KameletCondition, s: nat)
    returns (s': nat)
    requires Tells(q, Find(cs, c.kind), s)
    ensures Tells(q + [c], Some(Carried(cs, c)), s')
  {
    s' := if q != [] && q[|q| - 1].status == c.status then s else |q|;
  }

  lemma {:induction false} EditedTells(edits: seq<Edit>, kind: string) returns (s: nat)
    ensures Tells(PutsFor(edits, kind), Find(Edited(edits), kind), s)
  {
    if edits == [] {
      s := 0;
    } else {
      var front, last := edits[..|edits| - 1], edits[|edits| - 1];
      s := EditedTells(front, kind);
      match last {
        case Put(c) =>
          UpsertReplaces(Edited(front), c);
          hide Upsert, Carried;
          if c.kind == kind {
            s := TellsOneMore(PutsFor(front, kind), Edited(front), c, s);
          }
        case Drop(k) =>
          FindWithout(Edited(front), k, kind);
      }
    }
  }

  /** After every run, the stored condition of a type follows from its effective updates since
      its last removal. */
  lemma RunActsTells(acts: seq<Act>, kind: string) returns (s: nat)
    ensures Tells(PutsFor(Effects(acts), kind), Find(RunActs(acts), kind), s)
  {
    RunIsEdited(acts);
    s := EditedTells(Effects(acts), kind);
  }

  // ----- runs of the object

  function Calls(calls: seq<Call>): seq<Act> {
    seq(|calls|, i requires 0 <= i < |calls| => SetOne(calls[i]))
  }

  /** A run of single updates is a run. */
  lemma {:induction false} RunIsRunActs(calls: seq<Call>)
    ensures Run(calls) == RunActs(Calls(calls))
  {
    if calls != [] {
      RunIsRunActs(calls[..|calls| - 1]);
      assert Calls(calls)[..|calls| - 1] == Calls(calls[..|calls| - 1]);
      hide SetAll, ConditionOf;
    }
  }

  /** The calls made on a status without conditions. */
  method Perform(status: KameletStatus, acts: seq<Act>)
    requires status.Valid() && status.List() == []
    modifies status, Backing(status.conditions)
    ensures status.Valid() && status.List() == RunActs(acts)
  {
    hide SetAll, Without, StampAll;
    for i := 0 to |acts|
      invariant status.Valid() && status.List() == RunActs(acts[..i])
      invariant Backing(status.conditions) == old(Backing(status.conditions)) || fresh(Backing(status.conditions))
    {
      assert acts[..i + 1][..i] == acts[..i];
      match acts[i] {
        case Set(conditions, clock) => status.SetConditions(conditions, clock);
        case SetOne(call) => status.SetCondition(call.kind, call.status, call.reason, call.message, call.clock);
        case SetError(kind, reason, error, now) => status.SetErrorCondition(kind, reason, error, now);
        case Remove(kind) => status.RemoveCondition(kind);
      }
    }
    assert acts[..|acts|] == acts;
  }
}
