/** What the dependencies of a catalog come to, and that the graph written for them is well
    formed. */
module SbomTheorems {
  import opened Options
  import opened Text
  import opened StringOrder
  import opened PercentEncoding
  import opened Sbom
  import opened SbomScanner

  // ----- what the dependencies of a catalog come to

  /** Some dependency of the Kamelet stands for the artifact. */
  ghost predicate DependsOn(k: Declaration, camelVersion: string, ref: string) {
    exists dep :: dep in k.dependencies && Yields(Mention(k.name, dep), camelVersion, ref)
  }

  lemma {:induction false} MentionsMeaning(ks: seq<Declaration>, m: Mention)
    ensures m in Mentions(ks) <==>
            exists k :: k in ks && k.name == m.kamelet && m.dependency in k.dependencies
  {
    if ks != [] {
      var before, last := ks[..|ks| - 1], ks[|ks| - 1];
      MentionsMeaning(before, m);
      assert ks == before + [last];
      if last.name == m.kamelet && m.dependency in last.dependencies {
        var j :| 0 <= j < |last.dependencies| && last.dependencies[j] == m.dependency;
        assert MentionsOf(last)[j] == m;
      }
    }
  }

  lemma RefsMeaning(ks: seq<Declaration>, camelVersion: string, n: string, ref: string)
    ensures ref in RefsOf(Mentions(ks), n, camelVersion) <==>
            exists k :: k in ks && k.name == n && DependsOn(k, camelVersion, ref)
    ensures ref in ArtifactRefs(Mentions(ks), camelVersion) <==>
            exists k :: k in ks && DependsOn(k, camelVersion, ref)
  {
    hide Read, Mentions;
    forall m
      ensures m in Mentions(ks) <==>
              exists k :: k in ks && k.name == m.kamelet && m.dependency in k.dependencies
    {
      MentionsMeaning(ks, m);
    }
    forall k, dep | k in ks && dep in k.dependencies && Yields(Mention(k.name, dep), camelVersion, ref)
      ensures ref in RefsOf(Mentions(ks), k.name, camelVersion) && ref in ArtifactRefs(Mentions(ks), camelVersion)
    {
      assert Mention(k.name, dep) in Mentions(ks);
    }
  }

  /** The description of an artifact follows from its kind and its package URL. */
  ghost predicate Describes(c: Component, dep: string, camelVersion: string) {
    && c.group.Some? && c.ref == Purl(c.group.value, c.name, c.version) && c.purl == Some(c.ref)
    && ':' !in c.group.value
    && if StartsWith(dep, CAMEL_PREFIX) then
         && c.group.value == CAMEL_GROUP && c.name == "camel-" + dep[|CAMEL_PREFIX|..]
         && c.version == camelVersion && c.properties == [Property(VERSIONED_BY, RUNTIME)]
       else c.properties == []
  }

  lemma {:induction false} DropTrailingEmptyIsPrefix(parts: seq<string>)
    ensures DropTrailingEmpty(parts) <= parts
  {
    if parts != [] && parts[|parts| - 1] == "" {
      DropTrailingEmptyIsPrefix(parts[..|parts| - 1]);
    }
  }

  /** No part of a split holds the character it was split at. */
  lemma SplitPartsAvoid(s: string, c: char, w: string)
    requires w in Split(s, c)
    ensures c !in w
  {
    if c in s {
      DropTrailingEmptyIsPrefix(SplitFrom(s, c, 0));
      var a, b := PartIsSegment(s, c, 0, w);
    }
  }

  lemma ReadDescribes(dep: string, camelVersion: string)
    requires Read(dep, camelVersion).Artifact?
    ensures Describes(Read(dep, camelVersion).component, dep, camelVersion)
  {
    hide Purl, Split;
    if StartsWith(dep, MVN_PREFIX) {
      assert dep[0] == 'm';
      var coordinate := dep[|MVN_PREFIX|..];
      SplitPartsAvoid(coordinate, ':', Split(coordinate, ':')[0]);
    } else {
      assert ':' !in CAMEL_GROUP;
    }
  }

  /** A camel dependency reads as the artifact of its component. */
  lemma CamelReads(component: string, camelVersion: string)
    ensures Read(CAMEL_PREFIX + component, camelVersion) == Artifact(CamelComponent(component, camelVersion))
  {
    hide CamelComponent;
    var dep := CAMEL_PREFIX + component;
    assert dep[0] == 'c' && MVN_PREFIX[0] == 'm';
    assert dep[|CAMEL_PREFIX|..] == component;
  }

  /** A coordinate that is printed with three parts reads as that artifact. */
  lemma MavenReads(group: string, name: string, version: string, camelVersion: string)
    requires ':' !in group && ':' !in name && ':' !in version && version != ""
    ensures Read(MVN_PREFIX + (group + (":" + (name + (":" + version)))), camelVersion) ==
            Artifact(ArtifactComponent(group, name, version, None))
  {
    hide ArtifactComponent, Split;
    var coordinate := group + (":" + (name + (":" + version)));
    SplitThree(group, name, version, ':');
    assert (MVN_PREFIX + coordinate)[|MVN_PREFIX|..] == coordinate;
  }

  lemma RefKinds(c: Component, dep: string, camelVersion: string)
    requires Describes(c, dep, camelVersion)
    ensures !IsKameletRef(c.ref) && c.ref != ROOT_REF
  {
    var p := "pkg:maven/" + Enc(c.group.value) + "/" + Enc(c.name) + "@" + Enc(c.version);
    hide Enc;
    assert c.ref == p && p[0] == 'p';
    assert KAMELET_REF_PREFIX[0] == 'k' && ROOT_REF[0] == 'c';
  }

  lemma FirstDescribes(ms: seq<Mention>, camelVersion: string, ref: string) returns (i: nat)
    requires ref in ArtifactRefs(ms, camelVersion)
    ensures IsFirst(ms, camelVersion, ref, i)
    ensures Describes(First(ms, camelVersion, ref), ms[i].dependency, camelVersion)
    ensures !IsKameletRef(ref) && ref != ROOT_REF
  {
    i := FirstMention(ms, camelVersion, ref);
    hide Read, First, Describes;
    ReadDescribes(ms[i].dependency, camelVersion);
    RefKinds(First(ms, camelVersion, ref), ms[i].dependency, camelVersion);
  }

  // ----- the document, place by place

  ghost function KameletList(ks: seq<Declaration>): seq<string> {
    Sorted(Names(ks))
  }

  ghost function ArtifactList(ks: seq<Declaration>, camelVersion: string): seq<string> {
    Sorted(ArtifactRefs(Mentions(ks), camelVersion))
  }

  lemma ListsAreSorted(ks: seq<Declaration>, camelVersion: string)
    ensures Lists(KameletList(ks), Names(ks)) && Ascending(KameletList(ks)) && NoRepeats(KameletList(ks))
    ensures Lists(ArtifactList(ks, camelVersion), ArtifactRefs(Mentions(ks), camelVersion))
    ensures Ascending(ArtifactList(ks, camelVersion)) && NoRepeats(ArtifactList(ks, camelVersion))
  {
    SortedLists(Names(ks));
    SortedLists(ArtifactRefs(Mentions(ks), camelVersion));
  }

  ghost predicate IsLaidOut(bom: Bom, ks: seq<Declaration>, projectVersion: string, camelVersion: string) {
    var ms, ns, refs := Mentions(ks), KameletList(ks), ArtifactList(ks, camelVersion);
    && bom.root == RootComponent(projectVersion)
    && |bom.components| == |ns| + |refs| && |bom.dependencies| == 1 + |ns| + |refs|
    && (forall i :: 0 <= i < |ns| ==> bom.components[i] == KameletComponent(ns[i], projectVersion))
    && (forall j :: 0 <= j < |refs| ==>
          && refs[j] in ArtifactRefs(ms, camelVersion)
          && bom.components[|ns| + j] == First(ms, camelVersion, refs[j]))
    && bom.dependencies[0] == Dependency(ROOT_REF, Sorted(KameletRefs(Names(ks))))
    && (forall i :: 0 <= i < |ns| ==>
          bom.dependencies[1 + i] == Dependency(KAMELET_REF_PREFIX + ns[i], Sorted(RefsOf(ms, ns[i], camelVersion))))
    && (forall j :: 0 <= j < |refs| ==> bom.dependencies[1 + |ns| + j] == Dependency(refs[j], []))
  }

  lemma DocumentIsLaidOut(ks: seq<Declaration>, projectVersion: string, camelVersion: string)
    ensures IsLaidOut(Document(ks, projectVersion, camelVersion), ks, projectVersion, camelVersion)
  {
    hide Sorted, Names, Mentions, First, RefsOf, ArtifactRefs, KameletRefs, RootComponent, KameletComponent,
      KameletComponents, ArtifactComponents, KameletEdges, ArtifactEdges, Ascending, NoRepeats;
    ListsAreSorted(ks, camelVersion);
    var ms, ns, refs := Mentions(ks), KameletList(ks), ArtifactList(ks, camelVersion);
    KameletsListed(ns, ms, projectVersion, camelVersion);
    ArtifactsListed(refs, ms, camelVersion);
  }

  lemma KameletsListed(ns: seq<string>, ms: seq<Mention>, projectVersion: string, camelVersion: string)
    ensures var cs, es := KameletComponents(ns, projectVersion), KameletEdges(ns, ms, camelVersion);
            && |cs| == |es| == |ns|
            && (forall i :: 0 <= i < |ns| ==> cs[i] == KameletComponent(ns[i], projectVersion))
            && (forall i :: 0 <= i < |ns| ==>
                  es[i] == Dependency(KAMELET_REF_PREFIX + ns[i], Sorted(RefsOf(ms, ns[i], camelVersion))))
  {
    hide Sorted, RefsOf, KameletComponent;
  }

  lemma ArtifactsListed(refs: seq<string>, ms: seq<Mention>, camelVersion: string)
    requires forall ref :: ref in refs ==> ref in ArtifactRefs(ms, camelVersion)
    ensures var cs, es := ArtifactComponents(refs, ms, camelVersion), ArtifactEdges(refs);
            && |cs| == |es| == |refs|
            && (forall j :: 0 <= j < |refs| ==>
                  refs[j] in ArtifactRefs(ms, camelVersion) && cs[j] == First(ms, camelVersion, refs[j]))
            && (forall j :: 0 <= j < |refs| ==> es[j] == Dependency(refs[j], []))
  {
    hide First, ArtifactRefs;
  }

  // ----- the graph is well formed

  ghost predicate AllRefsDiffer(cs: seq<Component>) {
    forall i, j :: 0 <= i < j < |cs| ==> cs[i].ref != cs[j].ref
  }

  /** One entry for the catalog and each component, in the same order. */
  ghost predicate OneEntryEach(bom: Bom) {
    && |bom.dependencies| == 1 + |bom.components|
    && bom.dependencies[0].ref == bom.root.ref
    && forall i :: 0 <= i < |bom.components| ==> bom.dependencies[1 + i].ref == bom.components[i].ref
  }

  ghost predicate HasComponent(bom: Bom, ref: string) {
    exists c :: c in bom.components && c.ref == ref
  }

  /** Edges lead from the catalog to Kamelets and from Kamelets to artifacts. */
  ghost predicate ThreeLayers(bom: Bom) {
    forall e, ref :: e in bom.dependencies && ref in e.dependsOn ==>
      && HasComponent(bom, ref)
      && (if IsKameletRef(ref) then e.ref == bom.root.ref else IsKameletRef(e.ref))
  }

  /** Every Kamelet hangs on the catalog, and every artifact on some Kamelet. */
  ghost predicate NothingDangles(bom: Bom) {
    forall c :: c in bom.components ==> exists e :: e in bom.dependencies && c.ref in e.dependsOn
  }

  lemma KameletRefIs(name: string)
    ensures IsKameletRef(KAMELET_REF_PREFIX + name) && KAMELET_REF_PREFIX + name != ROOT_REF
    ensures (KAMELET_REF_PREFIX + name)[|KAMELET_REF_PREFIX|..] == name
  {
    assert KAMELET_REF_PREFIX[0] == 'k' && ROOT_REF[0] == 'c';
  }

  /** The ref of each component, by its place. */
  lemma RefAt(bom: Bom, ks: seq<Declaration>, projectVersion: string, camelVersion: string, i: nat)
    requires IsLaidOut(bom, ks, projectVersion, camelVersion) && i < |bom.components|
    ensures var n := |KameletList(ks)|;
            if i < n then
              bom.components[i].ref == KAMELET_REF_PREFIX + KameletList(ks)[i] && IsKameletRef(bom.components[i].ref)
            else
              bom.components[i].ref == ArtifactList(ks, camelVersion)[i - n] && !IsKameletRef(bom.components[i].ref)
    ensures bom.components[i].ref != ROOT_REF
    ensures bom.dependencies[1 + i].ref == bom.components[i].ref
  {
    hide Mentions, First, Sorted, RefsOf, ArtifactRefs, KameletList, ArtifactList, Names, Describes, IsFirst,
      IsKameletRef, KameletRefs, RootComponent;
    var n := |KameletList(ks)|;
    if i < n {
      KameletRefIs(KameletList(ks)[i]);
    } else {
      assert bom.components[n + (i - n)] == bom.components[i];
      assert bom.dependencies[1 + n + (i - n)] == bom.dependencies[1 + i];
      var k := FirstDescribes(Mentions(ks), camelVersion, ArtifactList(ks, camelVersion)[i - n]);
    }
  }

  lemma RefsDiffer(ks: seq<Declaration>, projectVersion: string, camelVersion: string)
    ensures var bom := Document(ks, projectVersion, camelVersion);
            AllRefsDiffer([bom.root] + bom.components) && OneEntryEach(bom)
  {
    var bom := Document(ks, projectVersion, camelVersion);
    DocumentIsLaidOut(ks, projectVersion, camelVersion);
    ListsAreSorted(ks, camelVersion);
    hide Document, Mentions, First, Sorted, RefsOf, ArtifactRefs, KameletList, ArtifactList, Names, IsKameletRef;
    forall i: nat, j: nat | i < j < |bom.components|
      ensures bom.components[i].ref != bom.components[j].ref
    {
      RefAt(bom, ks, projectVersion, camelVersion, i);
      RefAt(bom, ks, projectVersion, camelVersion, j);
      if j < |KameletList(ks)| {
        KameletRefIs(KameletList(ks)[i]);
        KameletRefIs(KameletList(ks)[j]);
      }
    }
    forall i: nat | i < |bom.components|
      ensures bom.components[i].ref != ROOT_REF && bom.dependencies[1 + i].ref == bom.components[i].ref
    {
      RefAt(bom, ks, projectVersion, camelVersion, i);
    }
  }

  lemma HasKamelet(ks: seq<Declaration>, projectVersion: string, camelVersion: string, n: string)
    requires n in Names(ks)
    ensures HasComponent(Document(ks, projectVersion, camelVersion), KAMELET_REF_PREFIX + n)
  {
    var bom := Document(ks, projectVersion, camelVersion);
    DocumentIsLaidOut(ks, projectVersion, camelVersion);
    ListsAreSorted(ks, camelVersion);
    hide Document, Mentions, First, Sorted, RefsOf, ArtifactRefs, KameletList, ArtifactList, Names;
    var i :| 0 <= i < |KameletList(ks)| && KameletList(ks)[i] == n;
    assert bom.components[i] in bom.components;
  }

  lemma HasArtifact(ks: seq<Declaration>, projectVersion: string, camelVersion: string, ref: string)
    requires ref in ArtifactRefs(Mentions(ks), camelVersion)
    ensures HasComponent(Document(ks, projectVersion, camelVersion), ref)
  {
    var bom := Document(ks, projectVersion, camelVersion);
    DocumentIsLaidOut(ks, projectVersion, camelVersion);
    ListsAreSorted(ks, camelVersion);
    hide Document, Mentions, First, Sorted, RefsOf, ArtifactRefs, KameletList, ArtifactList, Names;
    var j :| 0 <= j < |ArtifactList(ks, camelVersion)| && ArtifactList(ks, camelVersion)[j] == ref;
    assert bom.components[|KameletList(ks)| + j] in bom.components;
  }

  lemma EdgesAreLayered(ks: seq<Declaration>, projectVersion: string, camelVersion: string)
    ensures ThreeLayers(Document(ks, projectVersion, camelVersion))
  {
    var bom := Document(ks, projectVersion, camelVersion);
    var n := |KameletList(ks)|;
    DocumentIsLaidOut(ks, projectVersion, camelVersion);
    forall i: nat | n < i < |bom.dependencies|
      ensures bom.dependencies[i].dependsOn == []
    {
      assert bom.dependencies[1 + n + (i - 1 - n)] == bom.dependencies[i];
    }
    forall e, ref | e in bom.dependencies && ref in e.dependsOn
      ensures HasComponent(bom, ref)
      ensures if IsKameletRef(ref) then e.ref == bom.root.ref else IsKameletRef(e.ref)
    {
      hide Document, Mentions, First, Sorted, RefsOf, ArtifactRefs, KameletList, ArtifactList, Names, HasComponent,
        IsKameletRef;
      var i :| 0 <= i < |bom.dependencies| && bom.dependencies[i] == e;
      if i == 0 {
        SortedLists(KameletRefs(Names(ks)));
        var name :| name in Names(ks) && ref == KAMELET_REF_PREFIX + name;
        HasKamelet(ks, projectVersion, camelVersion, name);
        KameletRefIs(name);
      } else {
        assert i <= n;
        var name := KameletList(ks)[i - 1];
        assert bom.dependencies[1 + (i - 1)] == e;
        SortedLists(RefsOf(Mentions(ks), name, camelVersion));
        RefsMeaning(ks, camelVersion, name, ref);
        HasArtifact(ks, projectVersion, camelVersion, ref);
        var k := FirstDescribes(Mentions(ks), camelVersion, ref);
        KameletRefIs(name);
      }
    }
  }

  lemma EveryComponentHangs(ks: seq<Declaration>, projectVersion: string, camelVersion: string)
    ensures NothingDangles(Document(ks, projectVersion, camelVersion))
  {
    var bom := Document(ks, projectVersion, camelVersion);
    var n := |KameletList(ks)|;
    DocumentIsLaidOut(ks, projectVersion, camelVersion);
    ListsAreSorted(ks, camelVersion);
    hide Document, Mentions, First, Sorted, RefsOf, ArtifactRefs, KameletList, ArtifactList, IsKameletRef, DependsOn;
    forall c | c in bom.components
      ensures exists e :: e in bom.dependencies && c.ref in e.dependsOn
    {
      var i: nat :| i < |bom.components| && bom.components[i] == c;
      RefAt(bom, ks, projectVersion, camelVersion, i);
      if i < n {
        SortedLists(KameletRefs(Names(ks)));
        assert KameletList(ks)[i] in KameletList(ks);
        assert bom.dependencies[0] in bom.dependencies;
      } else {
        assert bom.components[n + (i - n)] == c;
        assert c.ref == ArtifactList(ks, camelVersion)[i - n];
        RefsMeaning(ks, camelVersion, "", c.ref);
        var k :| k in ks && DependsOn(k, camelVersion, c.ref);
        RefsMeaning(ks, camelVersion, k.name, c.ref);
        SortedLists(RefsOf(Mentions(ks), k.name, camelVersion));
        assert k.name in Names(ks);
        var l :| 0 <= l < n && KameletList(ks)[l] == k.name;
        assert bom.dependencies[1 + l] in bom.dependencies;
      }
    }
  }

  ghost predicate HasEdge(bom: Bom, from: string, to: string) {
    exists e :: e in bom.dependencies && e.ref == from && to in e.dependsOn
  }

  lemma EntryOf(
      bom: Bom, ks: seq<Declaration>, projectVersion: string, camelVersion: string, e: Dependency, name: string)
    requires IsLaidOut(bom, ks, projectVersion, camelVersion)
    requires e in bom.dependencies && e.ref == KAMELET_REF_PREFIX + name
    ensures e.dependsOn == Sorted(RefsOf(Mentions(ks), name, camelVersion))
  {
    hide Mentions, First, Sorted, RefsOf, ArtifactRefs, KameletList, ArtifactList, Names, IsKameletRef, KameletRefs;
    var i: nat :| i < |bom.dependencies| && bom.dependencies[i] == e;
    KameletRefIs(name);
    assert i > 0;
    RefAt(bom, ks, projectVersion, camelVersion, i - 1);
    KameletRefIs(KameletList(ks)[i - 1]);
    assert bom.dependencies[1 + (i - 1)] == e;
  }

  /** A Kamelet has an edge to an artifact exactly when one of its name depends on the artifact. */
  lemma EdgesAreDependencies(
      ks: seq<Declaration>, projectVersion: string, camelVersion: string, name: string, ref: string)
    ensures HasEdge(Document(ks, projectVersion, camelVersion), KAMELET_REF_PREFIX + name, ref) <==>
            exists k :: k in ks && k.name == name && DependsOn(k, camelVersion, ref)
  {
    var bom := Document(ks, projectVersion, camelVersion);
    DocumentIsLaidOut(ks, projectVersion, camelVersion);
    ListsAreSorted(ks, camelVersion);
    RefsMeaning(ks, camelVersion, name, ref);
    SortedLists(RefsOf(Mentions(ks), name, camelVersion));
    if HasEdge(bom, KAMELET_REF_PREFIX + name, ref) {
      var e :| e in bom.dependencies && e.ref == KAMELET_REF_PREFIX + name && ref in e.dependsOn;
      EntryOf(bom, ks, projectVersion, camelVersion, e, name);
    }
    hide Document, Mentions, First, Sorted, RefsOf, ArtifactRefs, KameletList, ArtifactList, DependsOn;
    if k :| k in ks && k.name == name && DependsOn(k, camelVersion, ref) {
      assert name in Names(ks);
      var i :| 0 <= i < |KameletList(ks)| && KameletList(ks)[i] == name;
      assert bom.dependencies[1 + i] in bom.dependencies;
    }
  }

  /** The written graph is well formed, whatever the Kamelets declare. */
  lemma GraphIsWellFormed(ks: seq<Declaration>, projectVersion: string, camelVersion: string)
    ensures var bom := Document(ks, projectVersion, camelVersion);
            && AllRefsDiffer([bom.root] + bom.components) && OneEntryEach(bom)
            && ThreeLayers(bom) && NothingDangles(bom)
  {
    RefsDiffer(ks, projectVersion, camelVersion);
    EdgesAreLayered(ks, projectVersion, camelVersion);
    EveryComponentHangs(ks, projectVersion, camelVersion);
  }
}
