/** What the declared headers of a Kamelet hold, field by field, and in which order the entries
    are looked at. */
module HeaderFields {
  import opened Options
  import opened DeclaredHeaders

  // ----- the fields of one header

  /** The header that an entry stands for: its title is the display name and its declared type is
      both types; a null header says nothing. */
  predicate Shows(h: EndpointHeader, e: Entry) {
    && h.name == e.name && h.labelText == None
    && match e.header
       case None =>
         && h.display.name == None && h.display.description == None && h.tp == None && h.javaType == None
         && h.default == None && !h.required
       case Some(d) =>
         && h.display.name == d.title && h.display.description == d.description
         && h.tp == d.tp && h.javaType == d.tp && h.default == d.default
         && (h.required <==> d.required == Some(true))
  }

  ghost predicate ShownFrom(hs: seq<EndpointHeader>, es: seq<Entry>, ps: seq<int>) {
    |hs| == |ps| && forall k :: 0 <= k < |ps| ==> 0 <= ps[k] < |es| && Shows(hs[k], es[ps[k]])
  }

  /** Each declared header shows the first entry of its name, in the order of these entries. */
  lemma DeclaredFields(es: seq<Entry>) returns (ps: seq<int>)
    ensures FirstPlaces(es, ps) && ShownFrom(Merged(es), es, ps)
  {
    ps := MergedKeepsFirsts(es);
    forall e
      ensures Shows(ToHeaderModel(e), e)
    {
    }
    hide Merged, FirstPlaces, ToHeaderModel, Shows;
  }

  // ----- the order of the entries

  lemma {:induction false} TypeLevelConcat(a: seq<Option<TypeBlock>>, b: seq<Option<TypeBlock>>)
    ensures TypeLevel(a + b) == TypeLevel(a) + TypeLevel(b)
  {
    if b == [] {
      assert a + b == a;
    } else {
      var n := |b| - 1;
      assert (a + b)[..|a| + n] == a + b[..n];
      TypeLevelConcat(a, b[..n]);
    }
  }

  lemma {:induction false} CandidatesConcat(a: seq<Option<Side>>, b: seq<Option<Side>>)
    ensures Candidates(a + b) == Candidates(a) + Candidates(b)
  {
    hide SideLevel;
    if b == [] {
      assert a + b == a;
    } else {
      var n := |b| - 1;
      assert (a + b)[..|a| + n] == a + b[..n];
      CandidatesConcat(a, b[..n]);
    }
  }

  lemma OneType(headers: seq<Entry>)
    ensures TypeLevel([Some(TypeBlock(Some(headers)))]) == headers
    ensures TypeLevel([Some(TypeBlock(None))]) == [] && TypeLevel([None]) == []
  {}

  lemma OneSide(s: Option<Side>)
    ensures Candidates([s]) == SideLevel(s)
  {
    assert [s][..0] == [];
  }

  /** A side without entries of its own gives those of its data types. */
  lemma EntriesOfTypes(own: Option<seq<Entry>>, t: seq<Option<TypeBlock>>, u: seq<Option<TypeBlock>>,
                       headers: seq<Entry>)
    requires own == None || own == Some([])
    ensures Candidates([Some(Side(own, None))]) == [] && Candidates([Some(Side(own, Some([])))]) == []
    ensures Candidates([Some(Side(own, Some([None])))]) == []
    ensures Candidates([Some(Side(own, Some([Some(TypeBlock(None))])))]) == []
    ensures Candidates([Some(Side(own, Some([Some(TypeBlock(Some(headers)))])))]) == headers
    ensures Candidates([Some(Side(own, Some(t + u)))]) ==
            Candidates([Some(Side(own, Some(t)))]) + Candidates([Some(Side(own, Some(u)))])
  {
    hide Candidates, TypeLevel;
    TypeLevelConcat(t, u);
    OneType(headers);
    NoTypes();
    TypesOnly(own, []);
    TypesOnly(own, [None]);
    TypesOnly(own, [Some(TypeBlock(None))]);
    TypesOnly(own, [Some(TypeBlock(Some(headers)))]);
    TypesOnly(own, t);
    TypesOnly(own, u);
    TypesOnly(own, t + u);
  }

  lemma TypesOnly(own: Option<seq<Entry>>, ts: seq<Option<TypeBlock>>)
    requires own == None || own == Some([])
    ensures Candidates([Some(Side(own, None))]) == []
    ensures Candidates([Some(Side(own, Some(ts)))]) == TypeLevel(ts)
  {
    hide Candidates, TypeLevel;
    OneSide(Some(Side(own, None)));
    OneSide(Some(Side(own, Some(ts))));
    NoTypes();
  }

  /** The entries of the sides follow each other, and the block of a side hides its data types.
      Together with EntriesOfTypes these laws leave no choice. */
  lemma EntriesInOrder(a: seq<Option<Side>>, b: seq<Option<Side>>, headers: seq<Entry>,
                       types: Option<seq<Option<TypeBlock>>>)
    ensures Candidates(a + b) == Candidates(a) + Candidates(b) && Candidates([]) == [] && Candidates([None]) == []
    ensures headers != [] ==> Candidates([Some(Side(Some(headers), types))]) == headers
  {
    CandidatesConcat(a, b);
    NoSides();
    OneSide(None);
    OneSide(Some(Side(Some(headers), types)));
    hide Candidates;
  }

  lemma NoSides()
    ensures Candidates([]) == []
  {}

  lemma NoTypes()
    ensures TypeLevel([]) == []
  {}
}
