/** Reading the written document inverts it: each artifact comes out once, with exactly the
    Kamelets that depend on it. */
module SbomInversion {
  import opened Text
  import opened StringOrder
  import opened PercentEncoding
  import opened Sbom
  import opened SbomScanner
  import opened SbomTheorems

  /** The Kamelets an artifact is attributed to. A Kamelet whose name is empty is passed over. */
  ghost function Dependents(ks: seq<Declaration>, camelVersion: string, ref: string): set<string> {
    set k | k in ks && k.name != "" && DependsOn(k, camelVersion, ref) :: k.name
  }

  ghost function AllDependents(ks: seq<Declaration>, camelVersion: string, ref: string): set<string> {
    set k | k in ks && DependsOn(k, camelVersion, ref) :: k.name
  }

  /** The attribution names every dependent exactly when none of them is without a name. */
  lemma NamelessDependents(ks: seq<Declaration>, camelVersion: string, ref: string)
    ensures Dependents(ks, camelVersion, ref) == AllDependents(ks, camelVersion, ref) <==>
            !exists k :: k in ks && k.name == "" && DependsOn(k, camelVersion, ref)
    ensures Dependents(ks, camelVersion, ref) == AllDependents(ks, camelVersion, ref) - {""}
  {
    hide DependsOn;
    if k :| k in ks && k.name == "" && DependsOn(k, camelVersion, ref) {
      assert "" in AllDependents(ks, camelVersion, ref);
    }
  }

  /** A Kamelet file without a name: its artifact is attributed to nobody. */
  lemma NamelessIsPassedOver(camelVersion: string)
    ensures var ks, ref := [Declaration("", ["camel:x"])], Purl(CAMEL_GROUP, "camel-x", camelVersion);
            && ref in ArtifactRefs(Mentions(ks), camelVersion)
            && AllDependents(ks, camelVersion, ref) == {""} && Dependents(ks, camelVersion, ref) == {}
  {
    var k, ref := Declaration("", ["camel:x"]), Purl(CAMEL_GROUP, "camel-x", camelVersion);
    CamelXDependent("", camelVersion);
    hide Purl;
    assert k in [k];
    RefsMeaning([k], camelVersion, "", ref);
    hide DependsOn;
  }

  // ----- the names of the Kamelets

  lemma {:induction false} KameletNamesMeaning(cs: seq<Component>, ref: string)
    ensures ref in KameletNames(cs) <==> IsKameletRef(ref) && exists c :: c in cs && c.ref == ref
    ensures ref in KameletNames(cs) ==> exists c :: c in cs && c.ref == ref && c.name == KameletNames(cs)[ref]
  {
    hide IsKameletRef;
    if cs != [] {
      var before, last := cs[..|cs| - 1], cs[|cs| - 1];
      KameletNamesMeaning(before, ref);
      assert cs == before + [last];
      assert last in cs;
    }
  }

  lemma ComponentName(ks: seq<Declaration>, projectVersion: string, camelVersion: string, c: Component)
    requires c in Document(ks, projectVersion, camelVersion).components && IsKameletRef(c.ref)
    ensures c.ref == KAMELET_REF_PREFIX + c.name && c.name in Names(ks)
  {
    var bom := Document(ks, projectVersion, camelVersion);
    DocumentIsLaidOut(ks, projectVersion, camelVersion);
    ListsAreSorted(ks, camelVersion);
    hide Document, Mentions, First, Sorted, RefsOf, ArtifactRefs, KameletList, ArtifactList, IsKameletRef, Names;
    var i: nat :| i < |bom.components| && bom.components[i] == c;
    RefAt(bom, ks, projectVersion, camelVersion, i);
    assert i < |KameletList(ks)|;
    assert KameletList(ks)[i] in KameletList(ks);
  }

  /** An entry of the graph is counted for the Kamelet it belongs to. */
  lemma AttributedTo(ks: seq<Declaration>, projectVersion: string, camelVersion: string, ref: string)
    ensures var names := KameletNames(Document(ks, projectVersion, camelVersion).components);
            && (!IsKameletRef(ref) ==> Attributed(names, ref) == "")
            && (forall n :: n in Names(ks) && ref == KAMELET_REF_PREFIX + n ==> Attributed(names, ref) == n)
  {
    var bom := Document(ks, projectVersion, camelVersion);
    hide Document, Names, IsKameletRef;
    KameletNamesMeaning(bom.components, ref);
    forall n | n in Names(ks) && ref == KAMELET_REF_PREFIX + n
      ensures Attributed(KameletNames(bom.components), ref) == n
    {
      HasKamelet(ks, projectVersion, camelVersion, n);
      KameletRefIs(n);
      var c :| c in bom.components && c.ref == ref && c.name == KameletNames(bom.components)[ref];
      ComponentName(ks, projectVersion, camelVersion, c);
      KameletRefIs(c.name);
    }
  }

  // ----- the Kamelets of an artifact

  lemma {:induction false} CountOnce(ref: string, refs: seq<string>)
    requires NoRepeats(refs)
    ensures Count(ref, refs) == if ref in refs then 1 else 0
  {
    if refs != [] {
      var before := refs[..|refs| - 1];
      CountOnce(ref, before);
      assert refs == before + [refs[|refs| - 1]];
    }
  }

  /** The Kamelets of a list that an artifact is attributed to. */
  ghost function Wanted(ns: seq<string>, ms: seq<Mention>, camelVersion: string, ref: string): set<string> {
    set n | n in ns && n != "" && ref in RefsOf(ms, n, camelVersion)
  }

  ghost predicate SortedListing(l: seq<string>, s: set<string>) {
    Lists(l, s) && Ascending(l) && NoRepeats(l)
  }

  lemma AppendGreatest(l: seq<string>, s: set<string>, x: string)
    requires SortedListing(l, s) && x !in s && forall y :: y in s ==> Le(y, x)
    ensures SortedListing(l + [x], s + {x})
  {
    forall i | 0 <= i < |l|
      ensures Le(l[i], x) && l[i] != x
    {
      assert l[i] in l;
    }
  }

  /** What one entry of a Kamelet adds. */
  lemma EntryOfKamelet(
      bom: Bom, ks: seq<Declaration>, projectVersion: string, camelVersion: string, ref: string, i: nat)
    requires bom == Document(ks, projectVersion, camelVersion) && i < |KameletList(ks)|
    ensures 1 + i < |bom.dependencies|
    ensures var names, name, d := KameletNames(bom.components), KameletList(ks)[i], bom.dependencies[1 + i];
            && Attributed(names, d.ref) == name
            && Count(ref, d.dependsOn) == (if ref in RefsOf(Mentions(ks), name, camelVersion) then 1 else 0)
  {
    DocumentIsLaidOut(ks, projectVersion, camelVersion);
    ListsAreSorted(ks, camelVersion);
    hide Document, Mentions, First, Sorted, RefsOf, ArtifactRefs, KameletList, ArtifactList, IsKameletRef, Names,
      KameletNames, Attributed, Count;
    var name, d := KameletList(ks)[i], bom.dependencies[1 + i];
    assert name in KameletList(ks);
    AttributedTo(ks, projectVersion, camelVersion, d.ref);
    SortedLists(RefsOf(Mentions(ks), name, camelVersion));
    CountOnce(ref, d.dependsOn);
  }

  lemma RootCountsForNobody(bom: Bom, ks: seq<Declaration>, projectVersion: string, camelVersion: string, ref: string)
    requires bom == Document(ks, projectVersion, camelVersion) && |bom.dependencies| > 0
    ensures Declarers(KameletNames(bom.components), bom.dependencies[..1], ref) == []
  {
    hide KameletNames, Attributed, IsKameletRef;
    AttributedTo(ks, projectVersion, camelVersion, ROOT_REF);
    RootIsNoKamelet();
  }

  /** The entries of the catalog and of the first n Kamelets, for one artifact. */
  lemma {:induction false} DeclarersOfKamelets(
      bom: Bom, ks: seq<Declaration>, projectVersion: string, camelVersion: string, ref: string, n: nat)
    requires bom == Document(ks, projectVersion, camelVersion)
    requires n <= |KameletList(ks)| && n < |bom.dependencies|
    ensures SortedListing(
              Declarers(KameletNames(bom.components), bom.dependencies[..1 + n], ref),
              Wanted(KameletList(ks)[..n], Mentions(ks), camelVersion, ref))
  {
    hide Document, Mentions, RefsOf, KameletList, KameletNames, Attributed, Count, Declarers;
    if n == 0 {
      RootCountsForNobody(bom, ks, projectVersion, camelVersion, ref);
    } else {
      DeclarersOfKamelets(bom, ks, projectVersion, camelVersion, ref, n - 1);
      hide SortedListing, Wanted;
      EntryOfKamelet(bom, ks, projectVersion, camelVersion, ref, n - 1);
      var names, ns, ms := KameletNames(bom.components), KameletList(ks), Mentions(ks);
      var name, d, before := ns[n - 1], bom.dependencies[n], bom.dependencies[..n];
      ListsAreSorted(ks, camelVersion);
      WantedOneMore(ns, n, ms, camelVersion, ref);
      assert bom.dependencies[..1 + n] == before + [d];
      DeclarersOfOne(names, before, d, name, ref);
      if name != "" && ref in RefsOf(ms, name, camelVersion) {
        AppendGreatest(Declarers(names, before, ref), Wanted(ns[..n - 1], ms, camelVersion, ref), name);
      }
    }
  }

  lemma RootIsNoKamelet()
    ensures !IsKameletRef(ROOT_REF)
  {
    assert KAMELET_REF_PREFIX[0] == 'k' && ROOT_REF[0] == 'c';
  }

  lemma DeclarersOfOne(
      names: map<string, string>, before: seq<Dependency>, last: Dependency, name: string, ref: string)
    requires Attributed(names, last.ref) == name && Count(ref, last.dependsOn) <= 1
    ensures Declarers(names, before + [last], ref) ==
            if name != "" && Count(ref, last.dependsOn) == 1 then Declarers(names, before, ref) + [name]
            else Declarers(names, before, ref)
  {
    assert (before + [last])[..|before|] == before;
    assert Times(name, 1) == [name];
    assert Times(name, 0) == [];
  }

  lemma WantedOneMore(ns: seq<string>, n: nat, ms: seq<Mention>, camelVersion: string, ref: string)
    requires 0 < n <= |ns| && Ascending(ns) && NoRepeats(ns)
    ensures var name, before := ns[n - 1], Wanted(ns[..n - 1], ms, camelVersion, ref);
            && name !in before && (forall y :: y in before ==> Le(y, name))
            && Wanted(ns[..n], ms, camelVersion, ref) ==
               if name != "" && ref in RefsOf(ms, name, camelVersion) then before + {name} else before
  {
    hide RefsOf;
    assert ns[..n] == ns[..n - 1] + [ns[n - 1]];
  }

  /** Entries of artifacts count for nobody. */
  lemma {:induction false} DeclarersOfArtifacts(
      bom: Bom, ks: seq<Declaration>, projectVersion: string, camelVersion: string, ref: string, n: nat)
    requires bom == Document(ks, projectVersion, camelVersion) && |KameletList(ks)| < n <= |bom.dependencies|
    ensures var names := KameletNames(bom.components);
            Declarers(names, bom.dependencies[..n], ref) ==
            Declarers(names, bom.dependencies[..1 + |KameletList(ks)|], ref)
    decreases n
  {
    DocumentIsLaidOut(ks, projectVersion, camelVersion);
    hide Document, Mentions, First, Sorted, RefsOf, ArtifactRefs, KameletList, ArtifactList, IsKameletRef, Names,
      KameletNames, Attributed;
    if n > 1 + |KameletList(ks)| {
      assert bom.dependencies[..n][..n - 1] == bom.dependencies[..n - 1];
      DeclarersOfArtifacts(bom, ks, projectVersion, camelVersion, ref, n - 1);
      RefAt(bom, ks, projectVersion, camelVersion, n - 2);
      AttributedTo(ks, projectVersion, camelVersion, bom.dependencies[n - 1].ref);
    }
  }

  /** The scanner finds the Kamelets of an artifact, sorted and each one once. */
  lemma DeclarersAreDependents(ks: seq<Declaration>, projectVersion: string, camelVersion: string, ref: string)
    ensures var bom := Document(ks, projectVersion, camelVersion);
            SortList(Declarers(KameletNames(bom.components), bom.dependencies, ref)) ==
            Sorted(Dependents(ks, camelVersion, ref))
  {
    var bom, ns := Document(ks, projectVersion, camelVersion), KameletList(ks);
    DocumentIsLaidOut(ks, projectVersion, camelVersion);
    hide Document, Mentions, First, RefsOf, ArtifactRefs, KameletList, ArtifactList, Names, KameletNames, Attributed,
      DependsOn, Declarers, Wanted, Dependents, KameletRefs;
    var l := Declarers(KameletNames(bom.components), bom.dependencies, ref);
    DeclarersOfKamelets(bom, ks, projectVersion, camelVersion, ref, |ns|);
    DeclarersOfArtifacts(bom, ks, projectVersion, camelVersion, ref, |bom.dependencies|);
    assert bom.dependencies[..|bom.dependencies|] == bom.dependencies;
    assert ns[..|ns|] == ns;
    WantedIsDependents(ks, camelVersion, ref);
    hide Sorted, SortList, IsLaidOut;
    SortedIsUnique(l, Dependents(ks, camelVersion, ref));
    SortListFixes(l);
  }

  lemma WantedIsDependents(ks: seq<Declaration>, camelVersion: string, ref: string)
    ensures Wanted(KameletList(ks), Mentions(ks), camelVersion, ref) == Dependents(ks, camelVersion, ref)
  {
    ListsAreSorted(ks, camelVersion);
    hide Mentions, RefsOf, ArtifactRefs, KameletList, ArtifactList, DependsOn;
    forall n
      ensures n in Wanted(KameletList(ks), Mentions(ks), camelVersion, ref) <==> n in Dependents(ks, camelVersion, ref)
    {
      RefsMeaning(ks, camelVersion, n, ref);
    }
  }

  // ----- the scanned artifacts

  ghost predicate KameletsFirst(bom: Bom, first: nat) {
    forall i :: 0 <= i < |bom.components| ==>
      && (IsKameletRef(bom.components[i].ref) <==> i < first)
      && (i >= first ==> bom.components[i].group.Some?)
  }

  /** Reading passes over the Kamelets and then takes the artifacts in order. */
  lemma {:induction false} ScanTakesArtifacts(bom: Bom, first: nat, n: nat)
    requires KameletsFirst(bom, first) && first <= n <= |bom.components|
    ensures |ScanUpTo(bom, n)| == n - first
    ensures forall j :: 0 <= j < n - first ==> ScanUpTo(bom, n)[j] == ScanOne(bom, bom.components[first + j])
  {
    hide ScanOne, IsKameletRef;
    if n > first {
      ScanTakesArtifacts(bom, first, n - 1);
      assert !IsKameletRef(bom.components[n - 1].ref);
    } else {
      ScanSkipsKamelets(bom, first, n);
    }
  }

  lemma {:induction false} ScanSkipsKamelets(bom: Bom, first: nat, n: nat)
    requires KameletsFirst(bom, first) && n <= first && n <= |bom.components|
    ensures ScanUpTo(bom, n) == []
  {
    if n > 0 {
      ScanSkipsKamelets(bom, first, n - 1);
    }
  }

  lemma ArtifactAt(bom: Bom, ks: seq<Declaration>, projectVersion: string, camelVersion: string, i: nat)
    requires IsLaidOut(bom, ks, projectVersion, camelVersion) && i < |bom.components|
    ensures IsKameletRef(bom.components[i].ref) <==> i < |KameletList(ks)|
    ensures !IsKameletRef(bom.components[i].ref) ==> bom.components[i].group.Some?
  {
    hide Mentions, First, Sorted, RefsOf, ArtifactRefs, KameletList, ArtifactList, IsKameletRef, Names,
      RootComponent, KameletRefs, IsFirst;
    RefAt(bom, ks, projectVersion, camelVersion, i);
    var n := |KameletList(ks)|;
    if i >= n {
      assert bom.components[n + (i - n)] == bom.components[i];
      var k := FirstDescribes(Mentions(ks), camelVersion, ArtifactList(ks, camelVersion)[i - n]);
    }
  }

  /** What the scanner has to say about an artifact: the description that the first dependency
      standing for it gives, and the sorted list of the Kamelets that depend on it. */
  ghost predicate Attributes(ks: seq<Declaration>, camelVersion: string, ref: string, s: Scanned) {
    exists i, c: Component ::
      && IsFirst(Mentions(ks), camelVersion, ref, i)
      && c.ref == ref && Describes(c, Mentions(ks)[i].dependency, camelVersion)
      && s.coordinate == c.group.value + ":" + c.name && s.version == c.version
      && s.declaredBy == Join(",", Sorted(Dependents(ks, camelVersion, ref)))
      && s.runtimeVersioned == StartsWith(Mentions(ks)[i].dependency, CAMEL_PREFIX)
  }

  lemma ScanAttributes(
      bom: Bom, ks: seq<Declaration>, projectVersion: string, camelVersion: string, ref: string, c: Component)
    requires bom == Document(ks, projectVersion, camelVersion)
    requires ref in ArtifactRefs(Mentions(ks), camelVersion) && c == First(Mentions(ks), camelVersion, ref)
    requires c.group.Some?
    ensures Attributes(ks, camelVersion, ref, ScanOne(bom, c))
  {
    hide Document, Mentions, First, ArtifactRefs, Declarers, SortList, Sorted, Dependents;
    var i := FirstDescribes(Mentions(ks), camelVersion, ref);
    DeclarersAreDependents(ks, projectVersion, camelVersion, ref);
  }

  /** Reading what was written gives each artifact once, in the order of the refs, attributed to
      exactly the Kamelets that depend on it. */
  lemma ReadingInvertsWriting(ks: seq<Declaration>, projectVersion: string, camelVersion: string)
    ensures var bom := Document(ks, projectVersion, camelVersion);
            var refs, r := ArtifactList(ks, camelVersion), ScanDocument(Reparsed(bom));
            && r.Components? && |r.list| == |refs|
            && forall j :: 0 <= j < |refs| ==> Attributes(ks, camelVersion, refs[j], r.list[j])
    ensures SortedListing(ArtifactList(ks, camelVersion), ArtifactRefs(Mentions(ks), camelVersion))
  {
    var bom := Document(ks, projectVersion, camelVersion);
    var n, refs := |KameletList(ks)|, ArtifactList(ks, camelVersion);
    ListsAreSorted(ks, camelVersion);
    DocumentIsLaidOut(ks, projectVersion, camelVersion);
    hide Document, Mentions, First, Sorted, RefsOf, ArtifactRefs, KameletList, ArtifactList, IsKameletRef, Names,
      ScanUpTo, ScanOne, Attributes;
    assert KameletsFirst(bom, n) by {
      hide IsLaidOut;
      forall i: nat | i < |bom.components|
        ensures IsKameletRef(bom.components[i].ref) <==> i < n
        ensures i >= n ==> bom.components[i].group.Some?
      {
        ArtifactAt(bom, ks, projectVersion, camelVersion, i);
      }
    }
    ScanTakesArtifacts(bom, n, |bom.components|);
    ReadWhenComplete(Reparsed(bom));
    ReparsedIsComplete(bom);
    ViewOfReparsed(bom);
    hide KameletsFirst;
    forall j: nat | j < |refs|
      ensures Attributes(ks, camelVersion, refs[j], ScanUpTo(bom, |bom.components|)[j])
    {
      ArtifactAt(bom, ks, projectVersion, camelVersion, n + j);
      ScanAttributes(bom, ks, projectVersion, camelVersion, refs[j], bom.components[n + j]);
    }
  }

  /** No artifact is scanned twice at one version. */
  lemma ScannedOnce(ks: seq<Declaration>, camelVersion: string, ref: string, s: Scanned, ref': string, s': Scanned)
    requires Attributes(ks, camelVersion, ref, s) && Attributes(ks, camelVersion, ref', s')
    requires s.coordinate == s'.coordinate && s.version == s'.version
    ensures ref == ref'
  {
    hide Mentions, Purl, Yields, Dependents, Sorted;
    var i, c: Component :|
      && IsFirst(Mentions(ks), camelVersion, ref, i)
      && c.ref == ref && Describes(c, Mentions(ks)[i].dependency, camelVersion)
      && s.coordinate == c.group.value + ":" + c.name && s.version == c.version;
    var i', c': Component :|
      && IsFirst(Mentions(ks), camelVersion, ref', i')
      && c'.ref == ref' && Describes(c', Mentions(ks)[i'].dependency, camelVersion)
      && s'.coordinate == c'.group.value + ":" + c'.name && s'.version == c'.version;
    SplitIsUnique(c.group.value, c.name, ':', c'.group.value, c'.name);
  }

  // ----- the joined list

  predicate Joinable(l: seq<string>) {
    forall i :: 0 <= i < |l| ==> l[i] != "" && ',' !in l[i]
  }

  lemma JoinOfMore(w: string, rest: seq<string>)
    requires rest != []
    ensures Join(",", [w] + rest) == w + [','] + Join(",", rest) && ',' in Join(",", [w] + rest)
  {
    var l := [w] + rest;
    assert l[0] == w && l[1..] == rest;
    assert Join(",", l) == w + "," + Join(",", rest);
    hide Join;
    assert (w + [','] + Join(",", rest))[|w|] == ',';
  }

  lemma JoinOfNone()
    ensures Join(",", []) == ""
  {}

  lemma JoinOfOne(w: string)
    ensures Join(",", [w]) == w
  {}

  lemma JoinableRest(l: seq<string>)
    requires Joinable(l) && l != []
    ensures Joinable(l[1..]) && l[0] != "" && ',' !in l[0]
  {}

  lemma HeadAndRest(l: seq<string>)
    requires l != []
    ensures l == [l[0]] + l[1..]
  {}

  lemma JoinHasComma(l: seq<string>)
    requires Joinable(l)
    ensures ',' in Join(",", l) <==> |l| > 1
    ensures Join(",", l) == "" <==> l == []
  {
    hide Join, Joinable;
    if l == [] {
      JoinOfNone();
    } else {
      JoinableRest(l);
      HeadAndRest(l);
      if |l| == 1 {
        assert l == [l[0]];
        JoinOfOne(l[0]);
      } else {
        JoinOfMore(l[0], l[1..]);
      }
    }
  }

  /** Names without commas can be read back from the joined list. */
  lemma {:induction false} JoinIsInjective(l: seq<string>, m: seq<string>)
    requires Joinable(l) && Joinable(m) && Join(",", l) == Join(",", m)
    ensures l == m
  {
    hide Join, Joinable;
    JoinHasComma(l);
    JoinHasComma(m);
    if l != [] {
      JoinableRest(l);
      JoinableRest(m);
      HeadAndRest(l);
      HeadAndRest(m);
      if |l| == 1 {
        assert l == [l[0]] && m == [m[0]];
        JoinOfOne(l[0]);
        JoinOfOne(m[0]);
      } else {
        JoinOfMore(l[0], l[1..]);
        JoinOfMore(m[0], m[1..]);
        SplitIsUnique(l[0], Join(",", l[1..]), ',', m[0], Join(",", m[1..]));
        JoinIsInjective(l[1..], m[1..]);
      }
    }
  }

  lemma JoinableDependents(ks: seq<Declaration>, camelVersion: string, ref: string)
    requires forall k :: k in ks ==> ',' !in k.name
    ensures Joinable(Sorted(Dependents(ks, camelVersion, ref)))
  {
    SortedLists(Dependents(ks, camelVersion, ref));
    hide DependsOn, Sorted, Ascending, NoRepeats;
    var l := Sorted(Dependents(ks, camelVersion, ref));
    forall i | 0 <= i < |l|
      ensures l[i] != "" && ',' !in l[i]
    {
      assert l[i] in l;
    }
  }

  /** Two artifacts with the same text are attributed to the same Kamelets, unless a name holds
      a comma. */
  lemma AttributionIsReadable(
      ks: seq<Declaration>, camelVersion: string, ref: string, s: Scanned, ref': string, s': Scanned)
    requires forall k :: k in ks ==> ',' !in k.name
    requires Attributes(ks, camelVersion, ref, s) && Attributes(ks, camelVersion, ref', s')
    requires s.declaredBy == s'.declaredBy
    ensures Dependents(ks, camelVersion, ref) == Dependents(ks, camelVersion, ref')
  {
    var a, b := Dependents(ks, camelVersion, ref), Dependents(ks, camelVersion, ref');
    SortedLists(a);
    SortedLists(b);
    hide Describes, IsFirst, Mentions, DependsOn, Sorted, Join, Ascending, NoRepeats;
    JoinableDependents(ks, camelVersion, ref);
    JoinableDependents(ks, camelVersion, ref');
    JoinIsInjective(Sorted(a), Sorted(b));
  }

  /** With a comma in a name it may not: both catalogs attribute the artifact to "a,b". */
  lemma CommaIsAmbiguous(camelVersion: string)
    ensures var one := [Declaration("a,b", ["camel:x"])];
            var two := [Declaration("a", ["camel:x"]), Declaration("b", ["camel:x"])];
            var ref := Purl(CAMEL_GROUP, "camel-x", camelVersion);
            && Dependents(one, camelVersion, ref) == {"a,b"} && Dependents(two, camelVersion, ref) == {"a", "b"}
            && Join(",", Sorted({"a,b"})) == Join(",", Sorted({"a", "b"})) == "a,b"
  {
    OneOrTwo(camelVersion);
    SameText();
    hide Dependents, Join, Sorted, Purl;
  }

  lemma OneOrTwo(camelVersion: string)
    ensures var one := [Declaration("a,b", ["camel:x"])];
            var two := [Declaration("a", ["camel:x"]), Declaration("b", ["camel:x"])];
            var ref := Purl(CAMEL_GROUP, "camel-x", camelVersion);
            Dependents(one, camelVersion, ref) == {"a,b"} && Dependents(two, camelVersion, ref) == {"a", "b"}
  {
    hide DependsOn, Purl;
    CamelXDependent("a,b", camelVersion);
    CamelXDependent("a", camelVersion);
    CamelXDependent("b", camelVersion);
    var ref := Purl(CAMEL_GROUP, "camel-x", camelVersion);
    DependentsOfAll([Declaration("a,b", ["camel:x"])], camelVersion, ref);
    DependentsOfAll([Declaration("a", ["camel:x"]), Declaration("b", ["camel:x"])], camelVersion, ref);
    hide Dependents;
    assert Names([Declaration("a,b", ["camel:x"])]) == {"a,b"};
    assert Names([Declaration("a", ["camel:x"]), Declaration("b", ["camel:x"])]) == {"a", "b"};
  }

  lemma DependentsOfAll(ks: seq<Declaration>, camelVersion: string, ref: string)
    requires forall k :: k in ks ==> k.name != "" && DependsOn(k, camelVersion, ref)
    ensures Dependents(ks, camelVersion, ref) == Names(ks)
  {
    hide DependsOn;
  }

  lemma SameText()
    ensures Join(",", Sorted({"a,b"})) == Join(",", Sorted({"a", "b"})) == "a,b"
  {
    SortedIsUnique(["a,b"], {"a,b"});
    SortedIsUnique(["a", "b"], {"a", "b"});
    hide Sorted, Join;
    JoinOfOne("a,b");
    JoinOfOne("b");
    JoinOfMore("a", ["b"]);
    assert ["a"] + ["b"] == ["a", "b"] && "a" + [','] + "b" == "a,b";
  }

  lemma CamelXDependent(name: string, camelVersion: string)
    ensures DependsOn(Declaration(name, ["camel:x"]), camelVersion, Purl(CAMEL_GROUP, "camel-x", camelVersion))
  {
    hide Purl, Read;
    CamelReads("x", camelVersion);
    var k := Declaration(name, ["camel:x"]);
    assert CAMEL_PREFIX + "x" == "camel:x" && "camel-" + "x" == "camel-x";
    assert k.dependencies[0] == "camel:x";
    assert Yields(Mention(k.name, "camel:x"), camelVersion, Purl(CAMEL_GROUP, "camel-x", camelVersion));
  }
}
