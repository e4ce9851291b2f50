/** The status conditions of a Kamelet: what SetConditions and RemoveCondition make of a
    list of conditions, and the methods that do it in place. */
module Conditions {
  import opened Options
  import opened GoHeap
  import opened KameletTypes

  type ConditionStatus = string
  const CONDITION_FALSE: ConditionStatus := "False"

  /** A point in time. The zero time stands for an unset field. */
  type Time = int
  const ZERO_TIME: Time := 0

  /** What the clock answers: never the zero time. */
  type Instant = t: Time | t != ZERO_TIME witness 1

  datatype KameletCondition = KameletCondition(
    kind: string, status: ConditionStatus, lastUpdateTime: Time, lastTransitionTime: Time,
    reason: string, message: string)

  datatype KameletProperty = KameletProperty(name: string, default: string)

  /** The two clock readings one condition of a SetConditions call may take. */
  datatype Reading = Reading(update: Instant, transition: Instant)

  // ----- lists of conditions

  function Find(cs: seq<KameletCondition>, kind: string): Option<KameletCondition> {
    if cs == [] then None else if cs[0].kind == kind then Some(cs[0]) else Find(cs[1..], kind)
  }

  function Without(cs: seq<KameletCondition>, kind: string): seq<KameletCondition> {
    if cs == [] then []
    else if cs[|cs| - 1].kind != kind then Without(cs[..|cs| - 1], kind) + [cs[|cs| - 1]]
    else Without(cs[..|cs| - 1], kind)
  }

  /** Unset times are filled from the clock. */
  function Stamp(c: KameletCondition, r: Reading): KameletCondition {
    c.(lastUpdateTime := if c.lastUpdateTime == ZERO_TIME then r.update else c.lastUpdateTime,
       lastTransitionTime := if c.lastTransitionTime == ZERO_TIME then r.transition else c.lastTransitionTime)
  }

  function StampAll(cs: seq<KameletCondition>, rs: seq<Reading>): (out: seq<KameletCondition>)
    requires |cs| == |rs|
    ensures |out| == |cs|
  {
    seq(|cs|, i requires 0 <= i < |cs| => Stamp(cs[i], rs[i]))
  }

  /** The stored condition of that type already has this status and reason. */
  predicate Redundant(cs: seq<KameletCondition>, c: KameletCondition) {
    var current := Find(cs, c.kind);
    current.Some? && current.value.status == c.status && current.value.reason == c.reason
  }

  /** The condition as it is stored: an unchanged status keeps its transition time. */
  function Carried(cs: seq<KameletCondition>, c: KameletCondition): KameletCondition {
    var current := Find(cs, c.kind);
    if current.Some? && current.value.status == c.status
    then c.(lastTransitionTime := current.value.lastTransitionTime) else c
  }

  function Upsert(cs: seq<KameletCondition>, c: KameletCondition): seq<KameletCondition> {
    Without(cs, c.kind) + [Carried(cs, c)]
  }

  /** SetConditions on stamped conditions: it returns at the first redundant one. */
  function SetAll(cs: seq<KameletCondition>, updates: seq<KameletCondition>): seq<KameletCondition>
    decreases |updates|
  {
    if updates == [] || Redundant(cs, updates[0]) then cs
    else SetAll(Upsert(cs, updates[0]), updates[1..])
  }

  lemma SetAllStep(cs: seq<KameletCondition>, updates: seq<KameletCondition>, i: nat)
    requires i < |updates|
    ensures SetAll(cs, updates[i..]) ==
            if Redundant(cs, updates[i]) then cs else SetAll(Upsert(cs, updates[i]), updates[i + 1..])
  {
    assert updates[i..][1..] == updates[i + 1..];
  }

  lemma SetAllNone(cs: seq<KameletCondition>, updates: seq<KameletCondition>)
    ensures SetAll(cs, updates[|updates|..]) == cs
  {}

  // ----- the object

  class KameletStatus {
    var observedGeneration: int64
    var phase: string
    var conditions: Slice<KameletCondition>
    var properties: Slice<KameletProperty>

    constructor (observedGeneration: int64, phase: string,
                 conditions: Slice<KameletCondition>, properties: Slice<KameletProperty>)
      ensures this.observedGeneration == observedGeneration && this.phase == phase
      ensures this.conditions == conditions && this.properties == properties
    {
      this.observedGeneration, this.phase := observedGeneration, phase;
      this.conditions, this.properties := conditions, properties;
    }

    ghost predicate Valid()
      reads this
    {
      Fits(conditions)
    }

    ghost function List(): seq<KameletCondition>
      requires Valid()
      reads this, Backing(conditions)
    {
      Elements(conditions)
    }

    /** A pointer to a copy of the first condition of the type, or nil. */
    method GetCondition(kind: string) returns (c: Ref?<KameletCondition>)
      requires Valid()
      ensures c == null <==> Find(List(), kind).None?
      ensures c != null ==> fresh(c) && Find(List(), kind) == Some(c.v)
    {
      var len := if conditions.Nil? then 0 else conditions.len;
      for i := 0 to len
        invariant Find(List(), kind) == Find(List()[i..], kind)
      {
        if conditions.arr[i].kind == kind {
          c := new Ref(conditions.arr[i]);
          return;
        }
      }
      c := null;
    }

    /** Compacts the list within its own backing array. */
    method RemoveCondition(kind: string)
      requires Valid()
      modifies this`conditions, Backing(conditions)
      ensures Valid() && List() == Without(old(List()), kind)
      ensures Backing(conditions) == old(Backing(conditions))
      ensures conditions.Slice? ==>
                forall j :: conditions.len <= j < conditions.arr.Length ==> conditions.arr[j] == old(conditions.arr[j])
    {
      if conditions.Nil? {
        return;
      }
      var range := conditions;
      var kept := Slice(range.arr, 0);
      ghost var before := range.arr[..];
      for i := 0 to range.len
        invariant kept.Slice? && kept.arr == range.arr && kept.len <= i
        invariant range.arr[..kept.len] == Without(before[..i], kind)
        invariant forall j :: kept.len <= j < range.arr.Length ==> range.arr[j] == before[j]
      {
        assert before[..i + 1][..i] == before[..i];
        var c := range.arr[i];
        if c.kind != kind {
          kept := Append(kept, c);
        }
      }
      conditions := kept;
      assert before[..range.len] == old(List());
    }

    /** RemoveCondition followed by append into the compacted slice: nothing that was kept
        is lost, whether the append reuses the freed capacity or reallocates. */
    method Replace(condition: KameletCondition)
      requires Valid()
      modifies this`conditions, Backing(conditions)
      ensures Valid() && List() == Without(old(List()), condition.kind) + [condition]
      ensures Backing(conditions) == old(Backing(conditions)) || fresh(Backing(conditions))
    {
      RemoveCondition(condition.kind);
      conditions := Append(conditions, condition);
    }

    /** One turn of the loop of SetConditions. */
    method Update(condition0: KameletCondition, now: Reading) returns (redundant: bool)
      requires Valid()
      modifies this`conditions, Backing(conditions)
      ensures var c := Stamp(condition0, now);
              && redundant == Redundant(old(List()), c)
              && Valid() && List() == if redundant then old(List()) else Upsert(old(List()), c)
      ensures Backing(conditions) == old(Backing(conditions)) || fresh(Backing(conditions))
    {
      hide Find, Without;
      var condition := condition0;
      if condition.lastUpdateTime == ZERO_TIME {
        condition := condition.(lastUpdateTime := now.update);
      }
      if condition.lastTransitionTime == ZERO_TIME {
        condition := condition.(lastTransitionTime := now.transition);
      }
      var current := GetCondition(condition.kind);
      if current != null && current.v.status == condition.status && current.v.reason == condition.reason {
        return true;
      }
      if current != null && current.v.status == condition.status {
        condition := condition.(lastTransitionTime := current.v.lastTransitionTime);
      }
      Replace(condition);
      redundant := false;
    }

    /** The conditions are handled in turn, and a redundant one ends the call. */
    method SetConditions(conds: seq<KameletCondition>, clock: seq<Reading>)
      requires Valid() && |conds| == |clock|
      modifies this`conditions, Backing(conditions)
      ensures Valid() && List() == SetAll(old(List()), StampAll(conds, clock))
      ensures Backing(conditions) == old(Backing(conditions)) || fresh(Backing(conditions))
    {
      hide SetAll, Upsert, Redundant, Stamp;
      ghost var stamped := StampAll(conds, clock);
      assert stamped[0..] == stamped;
      for i := 0 to |conds|
        invariant Valid()
        invariant Backing(conditions) == old(Backing(conditions)) || fresh(Backing(conditions))
        invariant SetAll(old(List()), stamped) == SetAll(List(), stamped[i..])
      {
        SetAllStep(List(), stamped, i);
        var redundant := Update(conds[i], clock[i]);
        if redundant {
          return;
        }
      }
      SetAllNone(List(), stamped);
    }

    method SetCondition(kind: string, status: ConditionStatus, reason: string, message: string, clock: Reading)
      requires Valid()
      modifies this`conditions, Backing(conditions)
      ensures Valid()
      ensures List() == SetAll(old(List()),
                [KameletCondition(kind, status, clock.update, clock.transition, reason, message)])
      ensures Backing(conditions) == old(Backing(conditions)) || fresh(Backing(conditions))
    {
      var c := KameletCondition(kind, status, clock.update, clock.transition, reason, message);
      assert StampAll([c], [clock]) == [c];
      SetConditions([c], [clock]);
    }

    method SetErrorCondition(kind: string, reason: string, error: string, clock: Reading)
      requires Valid()
      modifies this`conditions, Backing(conditions)
      ensures Valid()
      ensures List() == SetAll(old(List()),
                [KameletCondition(kind, "False", clock.update, clock.transition, reason, error)])
      ensures Backing(conditions) == old(Backing(conditions)) || fresh(Backing(conditions))
    {
      var c := KameletCondition(kind, CONDITION_FALSE, clock.update, clock.transition, reason, error);
      assert StampAll([c], [clock]) == [c];
      SetConditions([c], [clock]);
    }
  }
}
