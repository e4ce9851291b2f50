/** What a list of conditions says about the calls that made it. */
module ConditionHistory {
  import opened Options
  import opened Conditions

  // ----- removing and replacing

  ghost predicate Increasing(idx: seq<nat>) {
    forall i, j :: 0 <= i < j < |idx| ==> idx[i] < idx[j]
  }

  /** The places of the conditions that are not of this type. */
  function Positions(cs: seq<KameletCondition>, kind: string): seq<nat> {
    if cs == [] then []
    else if cs[|cs| - 1].kind != kind then Positions(cs[..|cs| - 1], kind) + [|cs| - 1]
    else Positions(cs[..|cs| - 1], kind)
  }

  lemma {:induction false} PositionsAscend(cs: seq<KameletCondition>, kind: string)
    ensures Increasing(Positions(cs, kind))
    ensures forall k :: 0 <= k < |Positions(cs, kind)| ==> Positions(cs, kind)[k] < |cs|
  {
    if cs != [] {
      PositionsAscend(cs[..|cs| - 1], kind);
    }
  }

  lemma {:induction false} PositionsComplete(cs: seq<KameletCondition>, kind: string, i: nat)
    ensures i in Positions(cs, kind) <==> i < |cs| && cs[i].kind != kind
  {
    if cs != [] {
      PositionsComplete(cs[..|cs| - 1], kind, i);
    }
  }

  lemma {:induction false} WithoutSelects(cs: seq<KameletCondition>, kind: string)
    ensures |Without(cs, kind)| == |Positions(cs, kind)|
    ensures forall k :: 0 <= k < |Positions(cs, kind)| ==>
              Positions(cs, kind)[k] < |cs| && Without(cs, kind)[k] == cs[Positions(cs, kind)[k]]
  {
    if cs != [] {
      var front := cs[..|cs| - 1];
      WithoutSelects(front, kind);
      forall k | 0 <= k < |Positions(cs, kind)|
        ensures Positions(cs, kind)[k] < |cs| && Without(cs, kind)[k] == cs[Positions(cs, kind)[k]]
      {
        if k < |Positions(front, kind)| {
          assert Positions(cs, kind)[k] == Positions(front, kind)[k];
        }
      }
    }
  }

  /** Without keeps exactly the conditions of other types, in their order. */
  lemma WithoutIsOrderedFilter(cs: seq<KameletCondition>, kind: string) returns (idx: seq<nat>)
    ensures |idx| == |Without(cs, kind)| && Increasing(idx)
    ensures forall k :: 0 <= k < |idx| ==> idx[k] < |cs| && Without(cs, kind)[k] == cs[idx[k]]
    ensures forall i: nat :: i in idx <==> i < |cs| && cs[i].kind != kind
  {
    idx := Positions(cs, kind);
    PositionsAscend(cs, kind);
    WithoutSelects(cs, kind);
    forall i: nat
      ensures i in idx <==> i < |cs| && cs[i].kind != kind
    {
      PositionsComplete(cs, kind, i);
    }
  }

  lemma {:induction false} FindAppend(cs: seq<KameletCondition>, c: KameletCondition, kind: string)
    ensures Find(cs + [c], kind) ==
            if Find(cs, kind).Some? then Find(cs, kind) else if c.kind == kind then Some(c) else None
  {
    if cs == [] {
    } else {
      assert (cs + [c])[1..] == cs[1..] + [c];
      FindAppend(cs[1..], c, kind);
    }
  }

  lemma {:induction false} FindWithout(cs: seq<KameletCondition>, removed: string, kind: string)
    ensures Find(Without(cs, removed), kind) == if kind == removed then None else Find(cs, kind)
  {
    if cs == [] {
    } else {
      var last := |cs| - 1;
      assert cs == cs[..last] + [cs[last]];
      FindWithout(cs[..last], removed, kind);
      FindAppend(cs[..last], cs[last], kind);
      FindAppend(Without(cs[..last], removed), cs[last], kind);
    }
  }

  /** An update leaves one condition of its type, the last one, and finds every other type
      as before; this holds of any list, duplicates included. */
  lemma UpsertReplaces(cs: seq<KameletCondition>, c: KameletCondition)
    ensures var r := Upsert(cs, c);
            && r != []
            && r[..|r| - 1] == Without(cs, c.kind)
            && (forall k :: 0 <= k < |r| - 1 ==> r[k].kind != c.kind)
            && Find(r, c.kind) == Some(Carried(cs, c))
            && forall kind :: kind != c.kind ==> Find(r, kind) == Find(cs, kind)
  {
    var r := Upsert(cs, c);
    var idx := WithoutIsOrderedFilter(cs, c.kind);
    forall k | 0 <= k < |r| - 1
      ensures r[k].kind != c.kind
    {
      assert idx[k] in idx;
    }
    forall kind
      ensures Find(r, kind) == if kind == c.kind then Some(Carried(cs, c)) else Find(cs, kind)
    {
      FindWithout(cs, c.kind, kind);
      FindAppend(Without(cs, c.kind), Carried(cs, c), kind);
    }
  }

  // ----- the variadic call

  /** Every update applied, redundant or not. */
  function UpsertAll(cs: seq<KameletCondition>, updates: seq<KameletCondition>): seq<KameletCondition> {
    if updates == [] then cs
    else Upsert(UpsertAll(cs, updates[..|updates| - 1]), updates[|updates| - 1])
  }

  lemma {:induction false} UpsertAllFirst(cs: seq<KameletCondition>, updates: seq<KameletCondition>)
    requires updates != []
    ensures UpsertAll(cs, updates) == UpsertAll(Upsert(cs, updates[0]), updates[1..])
  {
    var last := |updates| - 1;
    if last == 0 {
      assert UpsertAll(cs, updates[..0]) == cs;
    } else {
      UpsertAllFirst(cs, updates[..last]);
      assert updates[..last][1..] == updates[1..][..last - 1];
    }
  }

  /** How many of the conditions of one call take effect. */
  function AppliedCount(cs: seq<KameletCondition>, updates: seq<KameletCondition>): (n: nat)
    ensures n <= |updates|
    decreases |updates|
  {
    if updates == [] || Redundant(cs, updates[0]) then 0
    else 1 + AppliedCount(Upsert(cs, updates[0]), updates[1..])
  }

  /** SetConditions applies exactly the longest prefix in which no condition is redundant at
      its turn, and ignores the rest, redundant or not. */
  lemma {:induction false} SetAllIsPrefix(cs: seq<KameletCondition>, updates: seq<KameletCondition>) returns (n: nat)
    ensures n == AppliedCount(cs, updates) && SetAll(cs, updates) == UpsertAll(cs, updates[..n])
    ensures forall i :: 0 <= i < n ==> !Redundant(UpsertAll(cs, updates[..i]), updates[i])
    ensures n < |updates| ==> Redundant(UpsertAll(cs, updates[..n]), updates[n])
    decreases |updates|
  {
    if updates == [] || Redundant(cs, updates[0]) {
      n := 0;
      assert UpsertAll(cs, updates[..0]) == cs;
    } else {
      var cs' := Upsert(cs, updates[0]);
      var m := SetAllIsPrefix(cs', updates[1..]);
      n := m + 1;
      assert UpsertAll(cs, updates[..0]) == cs;
      hide Redundant, Upsert, UpsertAll;
      forall i: nat | i <= m
        ensures UpsertAll(cs, updates[..i + 1]) == UpsertAll(cs', updates[1..][..i])
      {
        PrefixShift(cs, updates, i);
      }
      forall i: nat | i < n
        ensures !Redundant(UpsertAll(cs, updates[..i]), updates[i])
      {
        if i > 0 {
          PrefixShift(cs, updates, i - 1);
          assert updates[1..][i - 1] == updates[i];
        }
      }
    }
  }

  lemma PrefixShift(cs: seq<KameletCondition>, updates: seq<KameletCondition>, i: nat)
    requires i < |updates|
    ensures UpsertAll(cs, updates[..i + 1]) == UpsertAll(Upsert(cs, updates[0]), updates[1..][..i])
  {
    UpsertAllFirst(cs, updates[..i + 1]);
    assert updates[..i + 1][1..] == updates[1..][..i];
  }

  /** The early return is visible: a new condition that follows a redundant one is lost. */
  lemma ConditionAfterRedundantIsLost(a: KameletCondition, b: KameletCondition)
    requires a.kind != b.kind
    ensures SetAll([a], [a, b]) == [a]
    ensures SetAll([a], [b, a]) == [a, b]
  {
    assert Find([a], b.kind) == None;
    assert Without([a], b.kind) == [a];
    FindAppend([a], b, a.kind);
    assert [b, a][1..] == [a];
    calc {
      SetAll([a], [b, a]);
      SetAll(Upsert([a], b), [a]);
      SetAll([a, b], [a]);
      [a, b];
    }
  }

  /** The documented reading of SetConditions: a redundant condition is skipped, and the next
      one is handled. */
  function SkipAll(cs: seq<KameletCondition>, updates: seq<KameletCondition>): seq<KameletCondition>
    decreases |updates|
  {
    if updates == [] then cs
    else SkipAll(if Redundant(cs, updates[0]) then cs else Upsert(cs, updates[0]), updates[1..])
  }

  ghost predicate DistinctKinds(cs: seq<KameletCondition>) {
    forall i, j :: 0 <= i < j < |cs| ==> cs[i].kind != cs[j].kind
  }

  /** Whatever is redundant on this list is followed by redundant conditions only. */
  ghost predicate RedundantFromThen(cs: seq<KameletCondition>, updates: seq<KameletCondition>) {
    forall i, j :: 0 <= i < j < |updates| && Redundant(cs, updates[i]) ==> Redundant(cs, updates[j])
  }

  lemma OtherKindsStay(cs: seq<KameletCondition>, c: KameletCondition, other: KameletCondition)
    requires c.kind != other.kind
    ensures Redundant(Upsert(cs, c), other) <==> Redundant(cs, other)
  {
    UpsertReplaces(cs, c);
  }

  /** Skipping leaves every condition of the call redundant. */
  lemma {:induction false} SkipAllSettles(
      cs: seq<KameletCondition>, updates: seq<KameletCondition>, settled: KameletCondition)
    requires DistinctKinds(updates)
    requires settled in updates || (Redundant(cs, settled) && forall u :: u in updates ==> u.kind != settled.kind)
    ensures Redundant(SkipAll(cs, updates), settled)
    decreases |updates|
  {
    if updates != [] {
      var c, rest := updates[0], updates[1..];
      var cs' := if Redundant(cs, c) then cs else Upsert(cs, c);
      assert updates == [c] + rest;
      UpsertReplaces(cs, c);
      hide Upsert;
      assert settled == c ==> Redundant(cs', settled);
      assert settled.kind != c.kind && Redundant(cs, settled) ==> Redundant(cs', settled) by {
        if settled.kind != c.kind {
          OtherKindsStay(cs, c, settled);
        }
      }
      hide Redundant;
      forall u | u in rest
        ensures u.kind != c.kind
      {
        var j :| 0 <= j < |rest| && rest[j] == u;
        assert updates[j + 1] == u;
      }
      SkipAllSettles(cs', rest, settled);
    }
  }

  lemma {:induction false} SkipNothing(cs: seq<KameletCondition>, updates: seq<KameletCondition>)
    requires forall i :: 0 <= i < |updates| ==> Redundant(cs, updates[i])
    ensures SkipAll(cs, updates) == cs
    decreases |updates|
  {
    hide Redundant, Upsert;
    if updates != [] {
      SkipNothing(cs, updates[1..]);
    }
  }

  /** For conditions of pairwise distinct types, SetConditions does what its documentation says
      exactly when no redundant condition stands before one that is not. */
  lemma {:induction false} SkipsAsDocumented(cs: seq<KameletCondition>, updates: seq<KameletCondition>)
    requires DistinctKinds(updates)
    ensures SetAll(cs, updates) == SkipAll(cs, updates) <==> RedundantFromThen(cs, updates)
    decreases |updates|
  {
    if updates != [] {
      if Redundant(cs, updates[0]) {
        SkipsIfAllRedundant(cs, updates);
      } else {
        SkipsAsDocumented(Upsert(cs, updates[0]), updates[1..]);
        hide Redundant, Upsert, RedundantFromThen, DistinctKinds;
        RestDecides(cs, updates);
      }
    }
  }

  lemma SkipsIfAllRedundant(cs: seq<KameletCondition>, updates: seq<KameletCondition>)
    requires DistinctKinds(updates) && updates != [] && Redundant(cs, updates[0])
    ensures SkipAll(cs, updates) == cs <==> RedundantFromThen(cs, updates)
  {
    hide Redundant, Upsert;
    if SkipAll(cs, updates) == cs {
      forall j | 0 <= j < |updates|
        ensures Redundant(cs, updates[j])
      {
        SkipAllSettles(cs, updates, updates[j]);
      }
    }
    if RedundantFromThen(cs, updates) {
      SkipNothing(cs, updates);
    }
  }

  lemma RestDecides(cs: seq<KameletCondition>, updates: seq<KameletCondition>)
    requires DistinctKinds(updates) && updates != [] && !Redundant(cs, updates[0])
    ensures RedundantFromThen(cs, updates) <==> RedundantFromThen(Upsert(cs, updates[0]), updates[1..])
  {
    hide Redundant, Upsert;
    var cs', rest := Upsert(cs, updates[0]), updates[1..];
    forall j | 0 <= j < |rest|
      ensures rest[j] == updates[j + 1] && (Redundant(cs', rest[j]) <==> Redundant(cs, updates[j + 1]))
    {
      OtherKindsStay(cs, updates[0], updates[j + 1]);
    }
    if RedundantFromThen(cs', rest) {
      forall i, j | 0 <= i < j < |updates| && Redundant(cs, updates[i])
        ensures Redundant(cs, updates[j])
      {
        assert updates[i] == rest[i - 1] && updates[j] == rest[j - 1];
      }
    }
  }

  /** For any conditions, repeated types included: if everything from the first redundant one on
      is redundant at that moment, SetConditions does what its documentation says. */
  lemma {:induction false} SkipsWhenSettled(cs: seq<KameletCondition>, updates: seq<KameletCondition>)
    requires var n := AppliedCount(cs, updates);
             forall j :: n <= j < |updates| ==> Redundant(UpsertAll(cs, updates[..n]), updates[j])
    ensures SetAll(cs, updates) == SkipAll(cs, updates)
    decreases |updates|
  {
    hide Redundant, Upsert;
    if updates != [] {
      var n := AppliedCount(cs, updates);
      if Redundant(cs, updates[0]) {
        assert UpsertAll(cs, updates[..0]) == cs;
        SkipNothing(cs, updates);
      } else {
        var cs', rest := Upsert(cs, updates[0]), updates[1..];
        PrefixShift(cs, updates, n - 1);
        assert forall j :: n <= j < |updates| ==> updates[j] == rest[j - 1];
        SkipsWhenSettled(cs', rest);
      }
    }
  }

  /** With repeated types that is not necessary: skipping can lead away and back again. */
  lemma SkippingMayReturn(a: KameletCondition, b: KameletCondition)
    requires a.kind == b.kind && a.status == b.status && a.reason != b.reason
    requires a.lastTransitionTime == b.lastTransitionTime
    ensures SetAll([a], [a, b, a]) == SkipAll([a], [a, b, a]) == [a]
    ensures !Redundant([a], b)
  {
    assert [a, b, a][1..] == [b, a] && [b, a][1..] == [a] && [a][1..] == [];
    ReplaceOnly(a, b);
    ReplaceOnly(b, a);
    hide Upsert;
    assert !Redundant([b], a) && Redundant([a], a);
    hide Redundant;
    assert SkipAll([a], [a, b, a]) == SkipAll([a], [b, a]) == SkipAll([b], [a]) == SkipAll([a], []);
  }

  lemma ReplaceOnly(a: KameletCondition, b: KameletCondition)
    requires a.kind == b.kind && a.status == b.status && a.lastTransitionTime == b.lastTransitionTime
    ensures Upsert([a], b) == [b] && Find([a], b.kind) == Some(a)
  {
    assert [a][..|[a]| - 1] == [];
    assert Without([a], b.kind) == Without([], b.kind) == [];
    assert Carried([a], b) == b;
  }

  // ----- whole runs from an empty status

  datatype Call = Call(kind: string, status: ConditionStatus, reason: string, message: string, clock: Reading)

  function ConditionOf(call: Call): KameletCondition {
    KameletCondition(call.kind, call.status, call.clock.update, call.clock.transition, call.reason, call.message)
  }

  /** The list after a run of SetCondition and SetErrorCondition calls. */
  function Run(calls: seq<Call>): seq<KameletCondition> {
    if calls == [] then []
    else SetAll(Run(calls[..|calls| - 1]), [ConditionOf(calls[|calls| - 1])])
  }

  /** The calls made for one type. */
  function CallsFor(calls: seq<Call>, kind: string): seq<Call> {
    if calls == [] then []
    else
      var earlier := CallsFor(calls[..|calls| - 1], kind);
      var last := calls[|calls| - 1];
      if last.kind == kind then earlier + [last] else earlier
  }

  /** Call j repeats the status and the reason of the call before it. */
  predicate Repeats(q: seq<Call>, j: nat)
    requires j < |q|
  {
    j > 0 && q[j - 1].status == q[j].status && q[j - 1].reason == q[j].reason
  }

  /** Place s opens the last run of places with one status. */
  ghost predicate OpensLastRun<T>(q: seq<T>, status: T -> ConditionStatus, s: nat) {
    && s < |q|
    && (forall j :: s <= j < |q| ==> status(q[j]) == status(q[|q| - 1]))
    && (s > 0 ==> status(q[s - 1]) != status(q[s]))
  }

  function StatusOfCall(call: Call): ConditionStatus { call.status }

  /** Call s opens the last run of calls with one status. */
  ghost predicate OpensLastStatus(q: seq<Call>, s: nat) {
    OpensLastRun(q, StatusOfCall, s)
  }

  /** Call e is the last one that does not repeat its predecessor. */
  ghost predicate LastNonRepeating(q: seq<Call>, e: nat) {
    && e < |q|
    && !Repeats(q, e)
    && forall j :: e < j < |q| ==> Repeats(q, j)
  }

  /** How the two marks move when one more call arrives. */
  lemma MarksAfter(p: seq<Call>, last: Call, s: nat, e: nat) returns (s': nat, e': nat)
    requires p != [] ==> OpensLastStatus(p, s) && LastNonRepeating(p, e)
    ensures OpensLastStatus(p + [last], s') && LastNonRepeating(p + [last], e')
    ensures s' == if p == [] || p[|p| - 1].status != last.status then |p| else s
    ensures e' == if p == [] || p[|p| - 1].status != last.status || p[|p| - 1].reason != last.reason then |p| else e
  {
    s' := if p == [] || p[|p| - 1].status != last.status then |p| else s;
    e' := if p == [] || p[|p| - 1].status != last.status || p[|p| - 1].reason != last.reason then |p| else e;
    assert forall j: nat :: j < |p| ==> Repeats(p + [last], j) == Repeats(p, j);
  }

  lemma RunStep(calls: seq<Call>)
    requires calls != []
    ensures var before, c := Run(calls[..|calls| - 1]), ConditionOf(calls[|calls| - 1]);
            Run(calls) == if Redundant(before, c) then before else Upsert(before, c)
  {
    hide Upsert, Redundant, ConditionOf;
    var before, c := Run(calls[..|calls| - 1]), ConditionOf(calls[|calls| - 1]);
    assert [c][0] == c && [c][1..] == [];
    assert SetAll(Upsert(before, c), []) == Upsert(before, c);
  }

  /** The stored condition of a type is a function of the calls for that type alone: status
      and reason of the last one, transition time of the first call of the last run of one
      status, update time and message of the last call that was not suppressed. */
  lemma {:induction false} ConditionTellsHistory(calls: seq<Call>, kind: string) returns (s: nat, e: nat)
    ensures CallsFor(calls, kind) == [] ==> Find(Run(calls), kind) == None
    ensures var q := CallsFor(calls, kind);
            q != [] ==>
              && OpensLastStatus(q, s) && LastNonRepeating(q, e)
              && Find(Run(calls), kind) == Some(KameletCondition(kind, q[|q| - 1].status,
                   q[e].clock.update, q[s].clock.transition, q[|q| - 1].reason, q[e].message))
  {
    s, e := 0, 0;
    if calls == [] {
    } else {
      var earlier, last := calls[..|calls| - 1], calls[|calls| - 1];
      s, e := ConditionTellsHistory(earlier, kind);
      RunStep(calls);
      UpsertReplaces(Run(earlier), ConditionOf(last));
      hide Run, Upsert, Without;
      if last.kind == kind {
        s, e := MarksAfter(CallsFor(earlier, kind), last, s, e);
      }
    }
  }

  /** Call i of a run is suppressed when it repeats the previous call for its type. */
  ghost predicate Suppressed(calls: seq<Call>, i: nat)
    requires i < |calls|
  {
    var q := CallsFor(calls[..i + 1], calls[i].kind);
    q != [] && Repeats(q, |q| - 1)
  }

  lemma SuppressedIsRedundant(calls: seq<Call>)
    requires calls != []
    ensures Suppressed(calls, |calls| - 1) <==>
            Redundant(Run(calls[..|calls| - 1]), ConditionOf(calls[|calls| - 1]))
  {
    var last := calls[|calls| - 1];
    assert calls[..|calls| - 1 + 1] == calls;
    var s, e := ConditionTellsHistory(calls[..|calls| - 1], last.kind);
  }

  /** Call i is the last one for its type that was not suppressed. */
  ghost predicate LastUpdate(calls: seq<Call>, i: nat) {
    && i < |calls|
    && !Suppressed(calls, i)
    && forall j :: i < j < |calls| && calls[j].kind == calls[i].kind ==> Suppressed(calls, j)
  }

  lemma LastUpdateExtends(calls: seq<Call>, i: nat)
    requires calls != [] && i < |calls| - 1
    requires LastUpdate(calls[..|calls| - 1], i)
    requires calls[|calls| - 1].kind == calls[i].kind ==> Suppressed(calls, |calls| - 1)
    ensures LastUpdate(calls, i)
  {
    var earlier := calls[..|calls| - 1];
    forall j | 0 <= j < |earlier|
      ensures Suppressed(calls, j) == Suppressed(earlier, j)
    {
      assert calls[..j + 1] == earlier[..j + 1];
    }
  }

  /** The list holds one condition for each type that was ever set, ordered by the call that
      last updated it. */
  lemma {:induction false} RunIsOrderedByLastUpdate(calls: seq<Call>) returns (idx: seq<nat>)
    ensures |idx| == |Run(calls)| && Increasing(idx)
    ensures forall k :: 0 <= k < |idx| ==> LastUpdate(calls, idx[k]) && calls[idx[k]].kind == Run(calls)[k].kind
    ensures DistinctKinds(Run(calls))
  {
    if calls == [] {
      idx := [];
    } else {
      var n := |calls| - 1;
      var earlier, c := calls[..n], ConditionOf(calls[n]);
      var before := RunIsOrderedByLastUpdate(earlier);
      RunStep(calls);
      SuppressedIsRedundant(calls);
      if Redundant(Run(earlier), c) {
        idx := before;
        hide Redundant, Upsert, Suppressed, Run;
        forall k | 0 <= k < |idx|
          ensures LastUpdate(calls, idx[k])
        {
          LastUpdateExtends(calls, idx[k]);
        }
      } else {
        assert LastUpdate(calls, n);
        idx := MovedLast(calls, Run(earlier), before);
      }
    }
  }

  /** Dropping a type keeps the places of the others, all of them before n. */
  lemma KeptPlaces(cs: seq<KameletCondition>, kind: string, before: seq<nat>, n: nat)
    returns (kept: seq<nat>, moved: seq<nat>)
    requires |before| == |cs| && Increasing(before) && forall k :: 0 <= k < |before| ==> before[k] < n
    ensures |kept| == |moved| == |Without(cs, kind)| && Increasing(moved + [n])
    ensures forall k :: 0 <= k < |kept| ==>
              && kept[k] < |cs| && moved[k] == before[kept[k]]
              && Without(cs, kind)[k] == cs[kept[k]] && cs[kept[k]].kind != kind
    ensures forall i: nat :: i in kept <==> i < |cs| && cs[i].kind != kind
    ensures DistinctKinds(cs) ==> DistinctKinds(Without(cs, kind))
  {
    kept := WithoutIsOrderedFilter(cs, kind);
    hide Without;
    assert forall k :: 0 <= k < |kept| ==> kept[k] in kept;
    moved := seq(|kept|, k requires 0 <= k < |kept| => before[kept[k]]);
  }

  /** The places after an update that takes effect. */
  lemma MovedLast(calls: seq<Call>, cs: seq<KameletCondition>, before: seq<nat>) returns (idx: seq<nat>)
    requires calls != [] && |before| == |cs| && Increasing(before) && LastUpdate(calls, |calls| - 1)
    requires var n := |calls| - 1;
             forall k :: 0 <= k < |cs| ==>
               before[k] < n && LastUpdate(calls[..n], before[k]) && calls[before[k]].kind == cs[k].kind
    requires DistinctKinds(cs)
    ensures var r := Upsert(cs, ConditionOf(calls[|calls| - 1]));
            && |idx| == |r| && Increasing(idx) && DistinctKinds(r)
            && forall k :: 0 <= k < |idx| ==> LastUpdate(calls, idx[k]) && calls[idx[k]].kind == r[k].kind
  {
    var n, c := |calls| - 1, ConditionOf(calls[|calls| - 1]);
    hide Suppressed, Without, LastUpdate, Carried, Redundant, CallsFor;
    var kept, moved := KeptPlaces(cs, c.kind, before, n);
    forall k | 0 <= k < |moved|
      ensures LastUpdate(calls, moved[k]) && calls[moved[k]].kind != c.kind
    {
      LastUpdateExtends(calls, moved[k]);
    }
    hide Increasing;
    idx := moved + [n];
    CarriedKind(cs, c);
    assert Upsert(cs, c) == Without(cs, c.kind) + [Carried(cs, c)];
  }

  lemma CarriedKind(cs: seq<KameletCondition>, c: KameletCondition)
    ensures Carried(cs, c).kind == c.kind
  {}
}
