/** The headers a Kamelet declares about itself, merged over its sides and data types. */
module DeclaredHeaders {
  import opened Options

  datatype Header = Header(
    title: Option<string>, description: Option<string>, tp: Option<string>, default: Option<string>,
    required: Option<bool>)

  /** One entry of a map in its order; the value may be null. */
  datatype Entry = Entry(name: string, header: Option<Header>)
  datatype TypeBlock = TypeBlock(headers: Option<seq<Entry>>)
  datatype Side = Side(headers: Option<seq<Entry>>, types: Option<seq<Option<TypeBlock>>>)

  /** The data types of a Kamelet, null when it has no spec or the spec has none. */
  type DataTypes = Option<seq<Option<Side>>>

  datatype Display = Display(name: Option<string>, description: Option<string>)
  datatype EndpointHeader = EndpointHeader(
    name: string, display: Display, tp: Option<string>, javaType: Option<string>, default: Option<string>,
    required: bool, labelText: Option<string>)

  function ToHeaderModel(e: Entry): EndpointHeader {
    match e.header
    case None => EndpointHeader(e.name, Display(None, None), None, None, None, false, None)
    case Some(h) =>
      EndpointHeader(e.name, Display(h.title, h.description), h.tp, h.tp, h.default, h.required == Some(true), None)
  }

  // ----- which entries are looked at

  function OrNone<T>(s: Option<seq<T>>): seq<T> {
    if s.Some? then s.value else []
  }

  function TypeLevel(types: seq<Option<TypeBlock>>): seq<Entry> {
    if types == [] then []
    else
      var last := types[|types| - 1];
      TypeLevel(types[..|types| - 1]) + if last.Some? then OrNone(last.value.headers) else []
  }

  /** The block of a side hides those of its data types. */
  function SideLevel(side: Option<Side>): seq<Entry> {
    if side.None? then []
    else if OrNone(side.value.headers) != [] then side.value.headers.value
    else TypeLevel(OrNone(side.value.types))
  }

  function Candidates(sides: seq<Option<Side>>): seq<Entry> {
    if sides == [] then [] else Candidates(sides[..|sides| - 1]) + SideLevel(sides[|sides| - 1])
  }

  ghost predicate Names(es: seq<Entry>, name: string) {
    exists e :: e in es && e.name == name
  }

  ghost predicate TypeDeclares(t: Option<TypeBlock>, name: string) {
    t.Some? && t.value.headers.Some? && Names(t.value.headers.value, name)
  }

  ghost predicate SideDeclares(side: Option<Side>, name: string) {
    && side.Some?
    && if side.value.headers.Some? && side.value.headers.value != [] then Names(side.value.headers.value, name)
       else side.value.types.Some? && exists t :: t in side.value.types.value && TypeDeclares(t, name)
  }

  ghost predicate SomeSideDeclares(sides: seq<Option<Side>>, name: string) {
    exists s :: s in sides && SideDeclares(s, name)
  }

  lemma {:induction false} TypeLevelMeaning(types: seq<Option<TypeBlock>>, name: string)
    ensures Names(TypeLevel(types), name) <==> exists t :: t in types && TypeDeclares(t, name)
  {
    if types != [] {
      var before, last := types[..|types| - 1], types[|types| - 1];
      TypeLevelMeaning(before, name);
      assert types == before + [last];
      assert Names(TypeLevel(types), name) <==> Names(TypeLevel(before), name) || TypeDeclares(last, name);
    }
  }

  /** A header is looked at exactly when some side declares it. */
  lemma {:induction false} CandidatesMeaning(sides: seq<Option<Side>>, name: string)
    ensures Names(Candidates(sides), name) <==> SomeSideDeclares(sides, name)
  {
    if sides != [] {
      var before, last := sides[..|sides| - 1], sides[|sides| - 1];
      CandidatesMeaning(before, name);
      assert sides == before + [last];
      if last.Some? && last.value.types.Some? {
        TypeLevelMeaning(last.value.types.value, name);
      }
      assert Names(SideLevel(last), name) <==> SideDeclares(last, name);
      assert Names(Candidates(sides), name) <==> Names(Candidates(before), name) || Names(SideLevel(last), name);
    }
  }

  // ----- the merge

  predicate Has(declared: seq<EndpointHeader>, name: string) {
    exists h :: h in declared && h.name == name
  }

  /** LinkedHashMap.computeIfAbsent: the first entry of a name stays, in its place. */
  function ComputeIfAbsent(declared: seq<EndpointHeader>, e: Entry): seq<EndpointHeader> {
    if Has(declared, e.name) then declared else declared + [ToHeaderModel(e)]
  }

  function Merged(es: seq<Entry>): seq<EndpointHeader> {
    if es == [] then [] else ComputeIfAbsent(Merged(es[..|es| - 1]), es[|es| - 1])
  }

  predicate IsFirstOfName(es: seq<Entry>, i: int) {
    0 <= i < |es| && forall j :: 0 <= j < i ==> es[j].name != es[i].name
  }

  /** ps lists the places where a name occurs first, from left to right. */
  ghost predicate FirstPlaces(es: seq<Entry>, ps: seq<int>) {
    && (forall k :: 0 <= k < |ps| ==> IsFirstOfName(es, ps[k]))
    && (forall k, l :: 0 <= k < l < |ps| ==> ps[k] < ps[l])
    && (forall i :: IsFirstOfName(es, i) ==> i in ps)
  }

  ghost predicate TakenFrom(hs: seq<EndpointHeader>, es: seq<Entry>, ps: seq<int>) {
    |hs| == |ps| && forall k :: 0 <= k < |ps| ==> 0 <= ps[k] < |es| && hs[k] == ToHeaderModel(es[ps[k]])
  }

  lemma {:induction false} MergedNames(es: seq<Entry>, name: string)
    ensures Has(Merged(es), name) <==> Names(es, name)
  {
    if es != [] {
      var before, last := es[..|es| - 1], es[|es| - 1];
      MergedNames(before, name);
      assert es == before + [last];
      assert Names(es, name) <==> Names(before, name) || last.name == name;
      if last.name == name && !Has(Merged(before), name) {
        assert ToHeaderModel(last) in Merged(es);
      }
      if Has(Merged(before), name) {
        var h :| h in Merged(before) && h.name == name;
        assert h in Merged(es);
      }
    }
  }

  lemma FirstOfLonger(es: seq<Entry>, last: Entry, i: int)
    ensures IsFirstOfName(es + [last], i) <==>
            if i == |es| then !Names(es, last.name) else IsFirstOfName(es, i)
  {
    assert forall j :: 0 <= j < |es| ==> (es + [last])[j] == es[j];
    if i == |es| {
      if Names(es, last.name) {
        var e :| e in es && e.name == last.name;
        var j :| 0 <= j < |es| && es[j] == e;
        assert (es + [last])[j] == e;
      } else {
        assert forall j :: 0 <= j < |es| ==> es[j] in es;
      }
    }
  }

  lemma FirstPlacesOneMore(es: seq<Entry>, last: Entry, ps: seq<int>)
    requires FirstPlaces(es, ps)
    ensures FirstPlaces(es + [last], if Names(es, last.name) then ps else ps + [|es|])
  {
    var qs := if Names(es, last.name) then ps else ps + [|es|];
    assert forall k :: 0 <= k < |ps| ==> IsFirstOfName(es, ps[k]);
    forall i
      ensures IsFirstOfName(es + [last], i) <==>
              if i == |es| then !Names(es, last.name) else IsFirstOfName(es, i)
    {
      FirstOfLonger(es, last, i);
    }
    assert forall i :: i in qs <==> i in ps || (i == |es| && !Names(es, last.name));
  }

  lemma MergedOneMore(es: seq<Entry>, last: Entry)
    ensures Merged(es + [last]) == if Names(es, last.name) then Merged(es) else Merged(es) + [ToHeaderModel(last)]
  {
    MergedNames(es, last.name);
    MergedStep(es, last);
    hide Has, Names, ToHeaderModel, Merged;
  }

  /** The merged headers are the first entries of their names, in the order in which they occur. */
  lemma {:induction false} MergedKeepsFirsts(es: seq<Entry>) returns (ps: seq<int>)
    ensures FirstPlaces(es, ps) && TakenFrom(Merged(es), es, ps)
  {
    if es == [] {
      ps := [];
    } else {
      var before, last := es[..|es| - 1], es[|es| - 1];
      assert es == before + [last];
      hide FirstPlaces, TakenFrom, Names, ToHeaderModel, Merged;
      ps := MergedKeepsFirsts(before);
      MergedOneMore(before, last);
      FirstPlacesOneMore(before, last, ps);
      TakenOneMore(Merged(before), before, last, ps);
      ps := if Names(before, last.name) then ps else ps + [|before|];
    }
  }

  lemma TakenOneMore(hs: seq<EndpointHeader>, es: seq<Entry>, last: Entry, ps: seq<int>)
    requires TakenFrom(hs, es, ps)
    ensures TakenFrom(hs, es + [last], ps)
    ensures TakenFrom(hs + [ToHeaderModel(last)], es + [last], ps + [|es|])
  {
    hide ToHeaderModel;
  }

  lemma {:induction false} PlacesAreUnique(es: seq<Entry>, ps: seq<int>, qs: seq<int>, n: nat)
    requires FirstPlaces(es, ps) && FirstPlaces(es, qs) && n <= |ps|
    ensures n <= |qs| && forall k :: 0 <= k < n ==> ps[k] == qs[k]
  {
    if n > 0 {
      PlacesAreUnique(es, ps, qs, n - 1);
      var p := ps[n - 1];
      assert p in qs;
      var k :| 0 <= k < |qs| && qs[k] == p;
      assert qs[n - 1] in ps;
      var l :| 0 <= l < |ps| && ps[l] == qs[n - 1];
    }
  }

  /** Nothing else has that property. */
  lemma MergedIsTheOnlyOne(es: seq<Entry>, hs: seq<EndpointHeader>, ps: seq<int>)
    requires FirstPlaces(es, ps) && TakenFrom(hs, es, ps)
    ensures hs == Merged(es)
  {
    var qs := MergedKeepsFirsts(es);
    PlacesAreUnique(es, ps, qs, |ps|);
    PlacesAreUnique(es, qs, ps, |qs|);
    assert ps == qs;
    hide ToHeaderModel, FirstPlaces;
  }

  /** No header is reported twice, and exactly those that some side declares are reported. */
  lemma DeclaredOnce(sides: seq<Option<Side>>)
    ensures var hs := Merged(Candidates(sides));
            && (forall k, l :: 0 <= k < l < |hs| ==> hs[k].name != hs[l].name)
            && (forall name :: Has(hs, name) <==> SomeSideDeclares(sides, name))
            && (hs == [] <==> forall name :: !SomeSideDeclares(sides, name))
  {
    var es := Candidates(sides);
    var hs := Merged(es);
    var ps := MergedKeepsFirsts(es);
    hide Candidates, Merged, SomeSideDeclares;
    forall name
      ensures Has(hs, name) <==> SomeSideDeclares(sides, name)
    {
      MergedNames(es, name);
      CandidatesMeaning(sides, name);
    }
    if hs != [] {
      assert hs[0] in hs;
      assert Has(hs, hs[0].name);
    } else {
      forall name
        ensures !SomeSideDeclares(sides, name)
      {
        assert !Has(hs, name);
      }
    }
  }

  // ----- the loops

  method MergeEntries(declared0: seq<EndpointHeader>, entries: seq<Entry>, ghost before: seq<Entry>)
    returns (declared: seq<EndpointHeader>)
    requires declared0 == Merged(before)
    ensures declared == Merged(before + entries)
  {
    hide Merged, ComputeIfAbsent;
    declared := declared0;
    assert before + entries[..0] == before;
    var i := 0;
    while i < |entries|
      invariant 0 <= i <= |entries|
      invariant declared == Merged(before + entries[..i])
    {
      MergedStep(before + entries[..i], entries[i]);
      assert before + entries[..i + 1] == before + entries[..i] + [entries[i]];
      declared := ComputeIfAbsent(declared, entries[i]);
      i := i + 1;
    }
    assert entries[..i] == entries;
  }

  lemma MergedStep(es: seq<Entry>, last: Entry)
    ensures Merged(es + [last]) == ComputeIfAbsent(Merged(es), last)
  {
    hide ComputeIfAbsent;
    assert (es + [last])[..|es|] == es;
  }

  method MergeTypes(declared0: seq<EndpointHeader>, types: seq<Option<TypeBlock>>, ghost before: seq<Entry>)
    returns (declared: seq<EndpointHeader>)
    requires declared0 == Merged(before)
    ensures declared == Merged(before + TypeLevel(types))
  {
    hide Merged;
    declared := declared0;
    assert before + TypeLevel(types[..0]) == before;
    var i := 0;
    while i < |types|
      invariant 0 <= i <= |types|
      invariant declared == Merged(before + TypeLevel(types[..i]))
    {
      ghost var seen := before + TypeLevel(types[..i]);
      assert types[..i + 1][..i] == types[..i];
      if types[i].Some? && types[i].value.headers.Some? {
        declared := MergeEntries(declared, types[i].value.headers.value, seen);
        assert before + TypeLevel(types[..i + 1]) == seen + types[i].value.headers.value;
      } else {
        assert before + TypeLevel(types[..i + 1]) == seen;
      }
      i := i + 1;
    }
    assert types[..i] == types;
  }

  method GetDeclaredHeaders(dataTypes: DataTypes) returns (declared: seq<EndpointHeader>)
    ensures declared == Merged(Candidates(OrNone(dataTypes)))
  {
    hide Merged;
    declared := [];
    assert Merged([]) == [] by {
      MergedOfNone();
    }
    if dataTypes.None? {
      return;
    }
    var sides := dataTypes.value;
    var i := 0;
    while i < |sides|
      invariant 0 <= i <= |sides|
      invariant declared == Merged(Candidates(sides[..i]))
    {
      ghost var seen := Candidates(sides[..i]);
      assert sides[..i + 1][..i] == sides[..i];
      assert Candidates(sides[..i + 1]) == seen + SideLevel(sides[i]);
      assert seen + [] == seen;
      if sides[i].Some? {
        var side := sides[i].value;
        if side.headers.Some? && side.headers.value != [] {
          declared := MergeEntries(declared, side.headers.value, seen);
        } else if side.types.Some? {
          declared := MergeTypes(declared, side.types.value, seen);
        }
      }
      i := i + 1;
    }
    assert sides[..i] == sides;
  }

  lemma MergedOfNone()
    ensures Merged([]) == []
  {}
}
