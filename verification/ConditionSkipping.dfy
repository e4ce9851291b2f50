/** When SetConditions does what its documentation says although a type is repeated in one call:
    skipping a redundant condition and handling the rest comes back to where the call stopped. */
module ConditionSkipping {
  import opened Options
  import opened Conditions
  import opened ConditionHistory

  // ----- lists without some types

  function Except(cs: seq<KameletCondition>, kinds: set<string>): seq<KameletCondition> {
    if cs == [] then []
    else
      var last := cs[|cs| - 1];
      Except(cs[..|cs| - 1], kinds) + if last.kind in kinds then [] else [last]
  }

  function Kinds(cs: seq<KameletCondition>): set<string> {
    set c | c in cs :: c.kind
  }

  lemma WithoutOfNone(kind: string)
    ensures Without([], kind) == []
  {}

  lemma {:induction false} WithoutOfBoth(a: seq<KameletCondition>, b: seq<KameletCondition>, kind: string)
    ensures Without(a + b, kind) == Without(a, kind) + Without(b, kind)
  {
    hide Without;
    if b == [] {
      WithoutOfNone(kind);
      assert a + b == a;
    } else {
      var front, last := b[..|b| - 1], b[|b| - 1];
      assert b == front + [last];
      assert a + b == (a + front) + [last];
      WithoutOfBoth(a, front, kind);
      WithoutOneMore(a + front, last, kind);
      WithoutOneMore(front, last, kind);
    }
  }

  lemma ExceptOfNone(kinds: set<string>)
    ensures Except([], kinds) == []
  {}

  lemma {:induction false} ExceptOfBoth(a: seq<KameletCondition>, b: seq<KameletCondition>, kinds: set<string>)
    ensures Except(a + b, kinds) == Except(a, kinds) + Except(b, kinds)
  {
    hide Except;
    if b == [] {
      ExceptOfNone(kinds);
      assert a + b == a;
    } else {
      var front, last := b[..|b| - 1], b[|b| - 1];
      assert b == front + [last];
      assert a + b == (a + front) + [last];
      ExceptOfBoth(a, front, kinds);
      ExceptOneMore(a + front, last, kinds);
      ExceptOneMore(front, last, kinds);
    }
  }

  lemma ExceptOneMore(front: seq<KameletCondition>, last: KameletCondition, kinds: set<string>)
    ensures Except(front + [last], kinds) ==
            if last.kind in kinds then Except(front, kinds) else Except(front, kinds) + [last]
  {
    assert (front + [last])[..|front|] == front;
  }

  lemma WithoutOneMore(front: seq<KameletCondition>, last: KameletCondition, kind: string)
    ensures Without(front + [last], kind) ==
            if last.kind == kind then Without(front, kind) else Without(front, kind) + [last]
  {
    assert (front + [last])[..|front|] == front;
  }

  lemma {:induction false} WithoutOfExcept(cs: seq<KameletCondition>, kinds: set<string>, kind: string)
    ensures Without(Except(cs, kinds), kind) == Except(cs, kinds + {kind})
  {
    if cs == [] {
      NothingLeft(kinds, kind);
    } else {
      var front, last := cs[..|cs| - 1], cs[|cs| - 1];
      assert cs == front + [last];
      WithoutOfExcept(front, kinds, kind);
      ExceptOneMore(front, last, kinds);
      ExceptOneMore(front, last, kinds + {kind});
      WithoutOneMore(Except(front, kinds), last, kind);
    }
    hide Without, Except;
  }

  lemma NothingLeft(kinds: set<string>, kind: string)
    ensures Without(Except([], kinds), kind) == [] && Except([], kinds + {kind}) == []
  {}

  lemma {:induction false} ExceptNothing(cs: seq<KameletCondition>, kinds: set<string>)
    requires forall c :: c in cs ==> c.kind !in kinds
    ensures Except(cs, kinds) == cs
  {
    if cs != [] {
      ExceptNothing(cs[..|cs| - 1], kinds);
    }
  }

  lemma {:induction false} ExceptAll(cs: seq<KameletCondition>, kinds: set<string>)
    requires forall c :: c in cs ==> c.kind in kinds
    ensures Except(cs, kinds) == []
  {
    if cs != [] {
      ExceptAll(cs[..|cs| - 1], kinds);
    }
  }

  lemma WithoutKinds(cs: seq<KameletCondition>, kind: string)
    ensures Kinds(Without(cs, kind)) == Kinds(cs) - {kind}
    ensures DistinctKinds(cs) ==> DistinctKinds(Without(cs, kind))
  {
    var idx := WithoutIsOrderedFilter(cs, kind);
    hide Without;
    assert forall k :: 0 <= k < |idx| ==> idx[k] in idx;
    forall c | c in cs && c.kind != kind
      ensures c in Without(cs, kind)
    {
      var i: nat :| i < |cs| && cs[i] == c;
      assert i in idx;
    }
  }

  lemma UpsertDistinct(cs: seq<KameletCondition>, c: KameletCondition)
    requires DistinctKinds(cs)
    ensures DistinctKinds(Upsert(cs, c))
  {
    WithoutKinds(cs, c.kind);
    CarriedKind(cs, c);
    hide Without, Carried;
    assert forall k :: 0 <= k < |Without(cs, c.kind)| ==> Without(cs, c.kind)[k].kind in Kinds(Without(cs, c.kind));
  }

  // ----- what a skipping run leaves at the end of the list

  lemma {:induction false} SkipAllLast(cs: seq<KameletCondition>, front: seq<KameletCondition>, c: KameletCondition)
    ensures var before := SkipAll(cs, front);
            SkipAll(cs, front + [c]) == if Redundant(before, c) then before else Upsert(before, c)
    decreases |front|
  {
    hide Redundant, Upsert;
    if front == [] {
      assert front + [c] == [c] && [c][1..] == [];
    } else {
      assert (front + [c])[1..] == front[1..] + [c];
      SkipAllLast(if Redundant(cs, front[0]) then cs else Upsert(cs, front[0]), front[1..], c);
    }
  }

  /** The conditions that the run has put, each in the place of its last effective update. */
  function SkipTail(cs: seq<KameletCondition>, updates: seq<KameletCondition>): seq<KameletCondition> {
    if updates == [] then []
    else
      var front, c := updates[..|updates| - 1], updates[|updates| - 1];
      var before, tail := SkipAll(cs, front), SkipTail(cs, front);
      if Redundant(before, c) then tail else Without(tail, c.kind) + [Carried(before, c)]
  }

  lemma TailKinds(tail: seq<KameletCondition>, c: KameletCondition, stored: KameletCondition)
    requires DistinctKinds(tail) && stored.kind == c.kind
    ensures Kinds(Without(tail, c.kind) + [stored]) == Kinds(tail) + {c.kind}
    ensures DistinctKinds(Without(tail, c.kind) + [stored])
  {
    var rest := Without(tail, c.kind);
    WithoutKinds(tail, c.kind);
    hide Without;
    assert forall k :: 0 <= k < |rest| ==> rest[k].kind in Kinds(rest);
    assert Kinds(rest + [stored]) == Kinds(rest) + {c.kind};
  }

  lemma TailOneMore(
      cs: seq<KameletCondition>, before: seq<KameletCondition>, tail: seq<KameletCondition>, c: KameletCondition)
    requires before == Except(cs, Kinds(tail)) + tail && DistinctKinds(tail)
    ensures var more := Without(tail, c.kind) + [Carried(before, c)];
            Upsert(before, c) == Except(cs, Kinds(more)) + more && DistinctKinds(more)
  {
    hide Except, DistinctKinds, Kinds, Without, Carried;
    CarriedKind(before, c);
    TailKinds(tail, c, Carried(before, c));
    WithoutOfBoth(Except(cs, Kinds(tail)), tail, c.kind);
    WithoutOfExcept(cs, Kinds(tail), c.kind);
  }

  /** A skipping run leaves what it does not touch, in its order, and then its tail. */
  lemma {:induction false} SkipAllIsTail(cs: seq<KameletCondition>, updates: seq<KameletCondition>)
    ensures var tail := SkipTail(cs, updates);
            SkipAll(cs, updates) == Except(cs, Kinds(tail)) + tail && DistinctKinds(tail)
  {
    hide SkipAll, Except, Kinds, DistinctKinds, Redundant, Upsert, Without, Carried;
    if updates == [] {
      NothingSkipped(cs);
    } else {
      var front, c := updates[..|updates| - 1], updates[|updates| - 1];
      assert updates == front + [c];
      SkipAllIsTail(cs, front);
      SkipAllLast(cs, front, c);
      TailOneMore(cs, SkipAll(cs, front), SkipTail(cs, front), c);
    }
  }

  lemma NothingSkipped(cs: seq<KameletCondition>)
    ensures SkipAll(cs, []) == cs && SkipTail(cs, []) == []
    ensures Except(cs, Kinds([])) + [] == cs && DistinctKinds([])
  {
    ExceptNothing(cs, {});
    assert Kinds([]) == {};
  }

  predicate IsSuffix(tail: seq<KameletCondition>, cs: seq<KameletCondition>) {
    |tail| <= |cs| && cs[|cs| - |tail|..] == tail
  }

  /** Skipping comes back to the list it started from exactly when its tail ends that list: the
      types it touches are the last ones, in the same order and with the same contents. */
  lemma SkipsBack(cs: seq<KameletCondition>, updates: seq<KameletCondition>)
    requires DistinctKinds(cs)
    ensures SkipAll(cs, updates) == cs <==> IsSuffix(SkipTail(cs, updates), cs)
  {
    var tail := SkipTail(cs, updates);
    SkipAllIsTail(cs, updates);
    hide SkipAll, SkipTail;
    if IsSuffix(tail, cs) {
      var front := cs[..|cs| - |tail|];
      assert cs == front + tail;
      SuffixSplits(front, tail);
    }
  }

  lemma SuffixSplits(front: seq<KameletCondition>, tail: seq<KameletCondition>)
    requires DistinctKinds(front + tail)
    ensures Except(front + tail, Kinds(tail)) == front
  {
    var cs := front + tail;
    ExceptOfBoth(front, tail, Kinds(tail));
    ExceptAll(tail, Kinds(tail));
    forall c | c in front
      ensures c.kind !in Kinds(tail)
    {
      var i :| 0 <= i < |front| && front[i] == c;
      forall d | d in tail
        ensures d.kind != c.kind
      {
        var j :| 0 <= j < |tail| && tail[j] == d;
        assert cs[i].kind != cs[|front| + j].kind;
      }
    }
    ExceptNothing(front, Kinds(tail));
    hide Except;
    assert front + [] == front;
  }

  // ----- the call

  lemma {:induction false} UpsertAllDistinct(cs: seq<KameletCondition>, updates: seq<KameletCondition>)
    requires DistinctKinds(cs)
    ensures DistinctKinds(UpsertAll(cs, updates))
  {
    if updates != [] {
      UpsertAllDistinct(cs, updates[..|updates| - 1]);
      UpsertDistinct(UpsertAll(cs, updates[..|updates| - 1]), updates[|updates| - 1]);
    }
  }

  lemma {:induction false} SkipAllStarts(cs: seq<KameletCondition>, updates: seq<KameletCondition>)
    ensures var n := AppliedCount(cs, updates);
            SkipAll(cs, updates) == SkipAll(UpsertAll(cs, updates[..n]), updates[n..])
    decreases |updates|
  {
    hide Redundant, Upsert;
    var n := AppliedCount(cs, updates);
    if n == 0 {
      assert updates[..0] == [] && updates[0..] == updates;
    } else {
      var cs', rest := Upsert(cs, updates[0]), updates[1..];
      SkipAllStarts(cs', rest);
      PrefixShift(cs, updates, n - 1);
      assert rest[n - 1..] == updates[n..];
    }
  }

  /** For any conditions, repeated types included, and any list without duplicates: SetConditions
      does what its documentation says exactly when the types that the skipped call would still
      touch end the list already, in the same order and with the same contents. */
  lemma SkipsExactly(cs: seq<KameletCondition>, updates: seq<KameletCondition>)
    requires DistinctKinds(cs)
    ensures var n := AppliedCount(cs, updates);
            var stopped := UpsertAll(cs, updates[..n]);
            SetAll(cs, updates) == SkipAll(cs, updates) <==> IsSuffix(SkipTail(stopped, updates[n..]), stopped)
  {
    var n := SetAllIsPrefix(cs, updates);
    UpsertAllDistinct(cs, updates[..n]);
    SkipAllStarts(cs, updates);
    hide SetAll, SkipAll, UpsertAll, SkipTail, IsSuffix, Redundant, DistinctKinds, AppliedCount;
    SkipsBack(UpsertAll(cs, updates[..n]), updates[n..]);
  }
}
