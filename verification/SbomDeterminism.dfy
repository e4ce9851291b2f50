/** When the written document depends on the Kamelets only, and not on the order in which they
    and their dependencies are read. */
module SbomDeterminism {
  import opened Text
  import opened StringOrder
  import opened PercentEncoding
  import opened Sbom
  import opened SbomTheorems

  datatype Bag = Bag(name: string, dependencies: multiset<string>)

  function BagOf(k: Declaration): Bag {
    Bag(k.name, multiset(k.dependencies))
  }

  function BagList(ks: seq<Declaration>): seq<Bag> {
    seq(|ks|, i requires 0 <= i < |ks| => BagOf(ks[i]))
  }

  function Bags(ks: seq<Declaration>): multiset<Bag> {
    multiset(BagList(ks))
  }

  /** The same Kamelets with the same dependencies, each in any order. */
  predicate Reordered(ks: seq<Declaration>, ks': seq<Declaration>) {
    Bags(ks) == Bags(ks')
  }

  /** The artifact is pinned by one dependency and left to the runtime by another. */
  predicate PinnedAndRuntime(ks: seq<Declaration>, camelVersion: string, ref: string) {
    exists a, b ::
      && a in Mentions(ks) && Yields(a, camelVersion, ref) && StartsWith(a.dependency, MVN_PREFIX)
      && b in Mentions(ks) && Yields(b, camelVersion, ref) && StartsWith(b.dependency, CAMEL_PREFIX)
  }

  // ----- reordering keeps what is mentioned

  lemma BagsMeaning(ks: seq<Declaration>, b: Bag)
    ensures b in Bags(ks) <==> exists k :: k in ks && b == BagOf(k)
  {
    hide BagOf;
    forall k | k in ks
      ensures BagOf(k) in BagList(ks)
    {
      var i :| 0 <= i < |ks| && ks[i] == k;
      assert BagList(ks)[i] == BagOf(k);
    }
  }

  lemma ReorderedPartner(ks: seq<Declaration>, ks': seq<Declaration>, k: Declaration) returns (k': Declaration)
    requires Reordered(ks, ks') && k in ks
    ensures k' in ks' && k'.name == k.name && forall dep :: dep in k.dependencies <==> dep in k'.dependencies
  {
    BagsMeaning(ks, BagOf(k));
    BagsMeaning(ks', BagOf(k));
    k' :| k' in ks' && BagOf(k) == BagOf(k');
    forall dep
      ensures dep in k.dependencies <==> dep in k'.dependencies
    {
      assert dep in k.dependencies <==> dep in multiset(k.dependencies);
      assert dep in k'.dependencies <==> dep in multiset(k'.dependencies);
    }
  }

  lemma ReorderedIncludes(ks: seq<Declaration>, ks': seq<Declaration>)
    requires Reordered(ks, ks')
    ensures Names(ks) <= Names(ks') && forall m :: m in Mentions(ks) ==> m in Mentions(ks')
  {
    hide Reordered;
    forall n | n in Names(ks)
      ensures n in Names(ks')
    {
      var k :| k in ks && k.name == n;
      var k' := ReorderedPartner(ks, ks', k);
    }
    forall m | m in Mentions(ks)
      ensures m in Mentions(ks')
    {
      MentionsMeaning(ks, m);
      var k :| k in ks && k.name == m.kamelet && m.dependency in k.dependencies;
      var k' := ReorderedPartner(ks, ks', k);
      MentionsMeaning(ks', m);
    }
  }

  lemma SameMentions(ks: seq<Declaration>, ks': seq<Declaration>)
    requires Reordered(ks, ks')
    ensures Names(ks) == Names(ks') && forall m :: m in Mentions(ks) <==> m in Mentions(ks')
  {
    ReorderedIncludes(ks, ks');
    ReorderedIncludes(ks', ks);
  }

  lemma SameRefs(ms: seq<Mention>, ms': seq<Mention>, camelVersion: string)
    requires forall m :: m in ms <==> m in ms'
    ensures ArtifactRefs(ms, camelVersion) == ArtifactRefs(ms', camelVersion)
    ensures forall n :: RefsOf(ms, n, camelVersion) == RefsOf(ms', n, camelVersion)
    ensures AllParse(ms, camelVersion) <==> AllParse(ms', camelVersion)
  {
    hide Read;
  }

  // ----- without an artifact of both kinds

  lemma SameDescription(c: Component, c': Component, dep: string, dep': string, camelVersion: string)
    requires Describes(c, dep, camelVersion) && Describes(c', dep', camelVersion) && c.ref == c'.ref
    requires StartsWith(dep, CAMEL_PREFIX) <==> StartsWith(dep', CAMEL_PREFIX)
    ensures c == c'
  {
    PurlIsInjective(c.group.value, c.name, c.version, c'.group.value, c'.name, c'.version);
  }

  lemma ArtifactPrefix(dep: string, camelVersion: string)
    requires Read(dep, camelVersion).Artifact?
    ensures StartsWith(dep, MVN_PREFIX) <==> !StartsWith(dep, CAMEL_PREFIX)
  {
    assert MVN_PREFIX[0] == 'm' && CAMEL_PREFIX[0] == 'c';
  }

  lemma SameFirst(ks: seq<Declaration>, ks': seq<Declaration>, camelVersion: string, ref: string)
    requires forall m :: m in Mentions(ks) <==> m in Mentions(ks')
    requires ref in ArtifactRefs(Mentions(ks), camelVersion) && ref in ArtifactRefs(Mentions(ks'), camelVersion)
    requires !PinnedAndRuntime(ks, camelVersion, ref)
    ensures First(Mentions(ks), camelVersion, ref) == First(Mentions(ks'), camelVersion, ref)
  {
    hide Mentions, ArtifactRefs, Describes, First;
    var ms, ms' := Mentions(ks), Mentions(ks');
    var i := FirstDescribes(ms, camelVersion, ref);
    var i' := FirstDescribes(ms', camelVersion, ref);
    var a, b := ms[i], ms'[i'];
    assert a in ms && b in ms;
    ArtifactPrefix(a.dependency, camelVersion);
    ArtifactPrefix(b.dependency, camelVersion);
    assert Yields(a, camelVersion, ref) && Yields(b, camelVersion, ref);
    hide Read;
    SameDescription(
      First(ms, camelVersion, ref), First(ms', camelVersion, ref), a.dependency, b.dependency, camelVersion);
  }

  lemma SameArtifacts(ks: seq<Declaration>, ks': seq<Declaration>, camelVersion: string, refs: seq<string>)
    requires forall m :: m in Mentions(ks) <==> m in Mentions(ks')
    requires forall ref :: ref in refs ==>
               ref in ArtifactRefs(Mentions(ks), camelVersion) && ref in ArtifactRefs(Mentions(ks'), camelVersion)
    requires forall ref :: ref in refs ==> !PinnedAndRuntime(ks, camelVersion, ref)
    ensures ArtifactComponents(refs, Mentions(ks), camelVersion) ==
            ArtifactComponents(refs, Mentions(ks'), camelVersion)
  {
    hide Mentions, ArtifactRefs, First, PinnedAndRuntime;
    forall i | 0 <= i < |refs|
      ensures First(Mentions(ks), camelVersion, refs[i]) == First(Mentions(ks'), camelVersion, refs[i])
    {
      SameFirst(ks, ks', camelVersion, refs[i]);
    }
  }

  lemma SameDocument(ks: seq<Declaration>, ks': seq<Declaration>, projectVersion: string, camelVersion: string)
    requires Reordered(ks, ks') && forall ref :: !PinnedAndRuntime(ks, camelVersion, ref)
    ensures Document(ks, projectVersion, camelVersion) == Document(ks', projectVersion, camelVersion)
  {
    hide Reordered, PinnedAndRuntime, Mentions, Names, First, ArtifactRefs, RefsOf, Sorted, ArtifactComponents,
      KameletComponents, ArtifactEdges;
    SameMentions(ks, ks');
    SameRefs(Mentions(ks), Mentions(ks'), camelVersion);
    var refs := Sorted(ArtifactRefs(Mentions(ks), camelVersion));
    SortedLists(ArtifactRefs(Mentions(ks), camelVersion));
    SameArtifacts(ks, ks', camelVersion, refs);
    var names := Sorted(Names(ks));
    assert KameletEdges(names, Mentions(ks), camelVersion) == KameletEdges(names, Mentions(ks'), camelVersion);
  }

  // ----- with one

  /** A dependency of a Kamelet moved to the front of its list. */
  lemma MovedInside(k: Declaration, dep: string) returns (k': Declaration)
    requires dep in k.dependencies
    ensures BagOf(k') == BagOf(k) && k'.name == k.name && |k'.dependencies| > 0 && k'.dependencies[0] == dep
  {
    var deps := k.dependencies;
    var j :| 0 <= j < |deps| && deps[j] == dep;
    k' := Declaration(k.name, [dep] + (deps[..j] + deps[j + 1..]));
    assert deps == deps[..j] + ([dep] + deps[j + 1..]);
  }

  lemma FrontMention(ks: seq<Declaration>)
    requires |ks| > 0 && |ks[0].dependencies| > 0
    ensures |Mentions(ks)| > 0 && Mentions(ks)[0] == Mention(ks[0].name, ks[0].dependencies[0])
  {
    MentionsOfPrefix(ks, 0);
    assert Mentions(ks[..0]) == [];
    hide Mentions;
    assert MentionsOf(ks[0])[0] == Mention(ks[0].name, ks[0].dependencies[0]);
  }

  lemma BagsOfBoth(a: seq<Declaration>, b: seq<Declaration>)
    ensures Bags(a + b) == Bags(a) + Bags(b)
  {
    hide BagOf;
    assert BagList(a + b) == BagList(a) + BagList(b);
  }

  lemma MovedBags(front: seq<Declaration>, k: Declaration, back: seq<Declaration>, k': Declaration)
    requires BagOf(k) == BagOf(k')
    ensures Bags(front + ([k] + back)) == Bags([k'] + (front + back))
  {
    BagsOfBoth(front, [k] + back);
    BagsOfBoth([k], back);
    BagsOfBoth([k'], front + back);
    BagsOfBoth(front, back);
    assert BagList([k]) == BagList([k']);
    hide BagList;
  }

  /** Any dependency can be made the first one that is read. */
  lemma MoveToFront(ks: seq<Declaration>, m: Mention) returns (ks': seq<Declaration>)
    requires m in Mentions(ks)
    ensures Reordered(ks, ks') && |Mentions(ks')| > 0 && Mentions(ks')[0] == m
  {
    hide Mentions, BagOf, Bags;
    MentionsMeaning(ks, m);
    var k :| k in ks && k.name == m.kamelet && m.dependency in k.dependencies;
    var i :| 0 <= i < |ks| && ks[i] == k;
    var k' := MovedInside(k, m.dependency);
    ks' := [k'] + (ks[..i] + ks[i + 1..]);
    assert ks == ks[..i] + ([k] + ks[i + 1..]);
    MovedBags(ks[..i], k, ks[i + 1..], k');
    FrontMention(ks');
  }

  lemma FirstIsFrontmost(ks: seq<Declaration>, projectVersion: string, camelVersion: string, m: Mention, ref: string)
    returns (j: nat)
    requires |Mentions(ks)| > 0 && Mentions(ks)[0] == m && Yields(m, camelVersion, ref)
    ensures j < |ArtifactList(ks, camelVersion)| && ArtifactList(ks, camelVersion)[j] == ref
    ensures var cs := Document(ks, projectVersion, camelVersion).components;
            && |KameletList(ks)| + j < |cs|
            && Artifact(cs[|KameletList(ks)| + j]) == Read(m.dependency, camelVersion)
  {
    assert m in Mentions(ks);
    assert ref in ArtifactRefs(Mentions(ks), camelVersion);
    assert Artifact(First(Mentions(ks), camelVersion, ref)) == Read(m.dependency, camelVersion);
    DocumentIsLaidOut(ks, projectVersion, camelVersion);
    ListsAreSorted(ks, camelVersion);
    hide Document, Mentions, First, Sorted, RefsOf, ArtifactRefs, KameletList, ArtifactList, Names, Read;
    j :| 0 <= j < |ArtifactList(ks, camelVersion)| && ArtifactList(ks, camelVersion)[j] == ref;
  }

  lemma KindsReadDifferently(dep: string, dep': string, camelVersion: string)
    requires Read(dep, camelVersion).Artifact? && Read(dep', camelVersion).Artifact?
    requires StartsWith(dep, MVN_PREFIX) && StartsWith(dep', CAMEL_PREFIX)
    ensures Read(dep, camelVersion) != Read(dep', camelVersion)
  {
    ArtifactPrefix(dep, camelVersion);
    hide Read;
    ReadDescribes(dep, camelVersion);
    ReadDescribes(dep', camelVersion);
  }

  lemma OrdersThatDiffer(ks: seq<Declaration>, projectVersion: string, camelVersion: string, ref: string)
    returns (ks1: seq<Declaration>, ks2: seq<Declaration>)
    requires PinnedAndRuntime(ks, camelVersion, ref)
    ensures Reordered(ks, ks1) && Reordered(ks, ks2)
    ensures Document(ks1, projectVersion, camelVersion) != Document(ks2, projectVersion, camelVersion)
  {
    hide Mentions, Document, Read, Reordered, Names, ArtifactRefs, KameletList, ArtifactList, StartsWith;
    var a, b :|
      && a in Mentions(ks) && Yields(a, camelVersion, ref) && StartsWith(a.dependency, MVN_PREFIX)
      && b in Mentions(ks) && Yields(b, camelVersion, ref) && StartsWith(b.dependency, CAMEL_PREFIX);
    KindsReadDifferently(a.dependency, b.dependency, camelVersion);
    ks1 := MoveToFront(ks, a);
    ks2 := MoveToFront(ks, b);
    var j1 := FirstIsFrontmost(ks1, projectVersion, camelVersion, a, ref);
    var j2 := FirstIsFrontmost(ks2, projectVersion, camelVersion, b, ref);
    SameLists(ks, ks1, camelVersion);
    SameLists(ks, ks2, camelVersion);
    ListsAreSorted(ks, camelVersion);
    assert j1 == j2;
  }

  lemma SameLists(ks: seq<Declaration>, ks': seq<Declaration>, camelVersion: string)
    requires Reordered(ks, ks')
    ensures KameletList(ks) == KameletList(ks') && ArtifactList(ks, camelVersion) == ArtifactList(ks', camelVersion)
  {
    hide Reordered, Mentions, Names, ArtifactRefs, RefsOf;
    SameMentions(ks, ks');
    SameRefs(Mentions(ks), Mentions(ks'), camelVersion);
  }

  /** The document is the same for every order exactly when no artifact is both pinned and left to
      the runtime. */
  lemma OrderDoesNotMatter(ks: seq<Declaration>, projectVersion: string, camelVersion: string)
    ensures (forall ks' :: Reordered(ks, ks') ==>
               Document(ks', projectVersion, camelVersion) == Document(ks, projectVersion, camelVersion))
            <==> !exists ref :: PinnedAndRuntime(ks, camelVersion, ref)
    ensures forall ks' :: Reordered(ks, ks') ==>
              (AllParse(Mentions(ks'), camelVersion) <==> AllParse(Mentions(ks), camelVersion))
  {
    hide Reordered, Document, PinnedAndRuntime, Mentions, AllParse, Names, ArtifactRefs, RefsOf;
    if ref :| PinnedAndRuntime(ks, camelVersion, ref) {
      var ks1, ks2 := OrdersThatDiffer(ks, projectVersion, camelVersion, ref);
    } else {
      forall ks' | Reordered(ks, ks')
        ensures Document(ks', projectVersion, camelVersion) == Document(ks, projectVersion, camelVersion)
      {
        SameDocument(ks, ks', projectVersion, camelVersion);
      }
    }
    forall ks' | Reordered(ks, ks')
      ensures AllParse(Mentions(ks'), camelVersion) <==> AllParse(Mentions(ks), camelVersion)
    {
      SameMentions(ks, ks');
      SameRefs(Mentions(ks), Mentions(ks'), camelVersion);
    }
  }

  /** A Kamelet that pins an artifact and leaves it to the runtime as well is such a case. */
  lemma TwoKinds(ks: seq<Declaration>, k: Declaration, pinned: string, used: string, camelVersion: string, ref: string)
    requires k in ks && pinned in k.dependencies && used in k.dependencies
    requires StartsWith(pinned, MVN_PREFIX) && Yields(Mention(k.name, pinned), camelVersion, ref)
    requires StartsWith(used, CAMEL_PREFIX) && Yields(Mention(k.name, used), camelVersion, ref)
    ensures PinnedAndRuntime(ks, camelVersion, ref)
  {
    hide Yields, Mentions, StartsWith;
    MentionsMeaning(ks, Mention(k.name, pinned));
    MentionsMeaning(ks, Mention(k.name, used));
  }

  const VERSION := "4"

  /** mvn:org.apache.camel:camel-x:4 and camel:x. */
  const PINNED := MVN_PREFIX + (CAMEL_GROUP + (":" + ("camel-x" + (":" + VERSION))))
  const USED := CAMEL_PREFIX + "x"

  lemma PinnedYields(name: string)
    ensures Yields(Mention(name, PINNED), VERSION, Purl(CAMEL_GROUP, "camel-x", VERSION))
  {
    hide Read, Purl;
    MavenReads(CAMEL_GROUP, "camel-x", VERSION, VERSION);
  }

  lemma UsedYields(name: string)
    ensures Yields(Mention(name, USED), VERSION, Purl(CAMEL_GROUP, "camel-x", VERSION))
  {
    hide Read, Purl;
    CamelReads("x", VERSION);
    assert "camel-" + "x" == "camel-x";
  }

  lemma PinnedAndRuntimeExists()
    ensures PinnedAndRuntime(
              [Declaration("k", [PINNED, USED])], VERSION, Purl(CAMEL_GROUP, "camel-x", VERSION))
  {
    hide Yields, PinnedAndRuntime, Purl;
    var k := Declaration("k", [PINNED, USED]);
    assert k.dependencies[0] == PINNED && k.dependencies[1] == USED;
    assert StartsWith(PINNED, MVN_PREFIX) && StartsWith(USED, CAMEL_PREFIX);
    PinnedYields("k");
    UsedYields("k");
    TwoKinds([k], k, PINNED, USED, VERSION, Purl(CAMEL_GROUP, "camel-x", VERSION));
  }
}
