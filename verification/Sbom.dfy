/** The software bill of materials of the catalog: the dependency lists of the Kamelets turned
    into a graph from the catalog over its Kamelets to the artifacts they pull in. */
module Sbom {
  import opened Options
  import opened Text
  import opened StringOrder
  import opened PercentEncoding
  import KameletDocuments

  datatype Property = Property(name: string, value: string)
  datatype Component = Component(
    ref: string, group: Option<string>, name: string, version: string, purl: Option<string>,
    properties: seq<Property>)
  datatype Dependency = Dependency(ref: string, dependsOn: seq<string>)
  datatype Bom = Bom(root: Component, components: seq<Component>, dependencies: seq<Dependency>)

  /** What the writer takes from one Kamelet file. */
  datatype Declaration = Declaration(name: string, dependencies: seq<string>)

  datatype Outcome = Written(bom: Bom) | CannotParse(dependency: string)

  const MVN_PREFIX := "mvn:"
  const CAMEL_PREFIX := "camel:"
  const VERSIONED_BY := "camel.apache.org/versioned-by"
  const RUNTIME := "runtime"
  const KAMELET_REF_PREFIX := "kamelet:"
  const ROOT_REF := "camel-kamelets-catalog"
  const CAMEL_GROUP := "org.apache.camel"

  // ----- one dependency

  datatype Reading = Ignored | Unparsable | Artifact(component: Component)

  function ArtifactComponent(group: string, name: string, version: string, versionedBy: Option<string>): Component {
    var purl := Purl(group, name, version);
    Component(
      purl, Some(group), name, version, Some(purl),
      if versionedBy.None? then [] else [Property(VERSIONED_BY, versionedBy.value)])
  }

  function MavenComponent(coordinate: string): Reading {
    var parts := Split(coordinate, ':');
    if |parts| < 3 then Unparsable else Artifact(ArtifactComponent(parts[0], parts[1], parts[2], None))
  }

  function CamelComponent(component: string, camelVersion: string): Component {
    ArtifactComponent(CAMEL_GROUP, "camel-" + component, camelVersion, Some(RUNTIME))
  }

  function Read(dep: string, camelVersion: string): Reading {
    if StartsWith(dep, MVN_PREFIX) then MavenComponent(dep[|MVN_PREFIX|..])
    else if StartsWith(dep, CAMEL_PREFIX) then Artifact(CamelComponent(dep[|CAMEL_PREFIX|..], camelVersion))
    else Ignored
  }

  // ----- the dependencies of a catalog, in reading order

  datatype Mention = Mention(kamelet: string, dependency: string)

  function MentionsOf(k: Declaration): seq<Mention> {
    seq(|k.dependencies|, j requires 0 <= j < |k.dependencies| => Mention(k.name, k.dependencies[j]))
  }

  function Mentions(ks: seq<Declaration>): seq<Mention> {
    if ks == [] then [] else Mentions(ks[..|ks| - 1]) + MentionsOf(ks[|ks| - 1])
  }

  predicate Yields(m: Mention, camelVersion: string, ref: string) {
    var r := Read(m.dependency, camelVersion);
    r.Artifact? && r.component.ref == ref
  }

  function Names(ks: seq<Declaration>): set<string> {
    set k | k in ks :: k.name
  }

  function ArtifactRefs(ms: seq<Mention>, camelVersion: string): set<string> {
    set m | m in ms && Read(m.dependency, camelVersion).Artifact? :: Read(m.dependency, camelVersion).component.ref
  }

  function RefsOf(ms: seq<Mention>, kamelet: string, camelVersion: string): set<string> {
    set m | m in ms && m.kamelet == kamelet && Read(m.dependency, camelVersion).Artifact?
      :: Read(m.dependency, camelVersion).component.ref
  }

  /** The first mention of an artifact decides how the artifact is described. */
  function First(ms: seq<Mention>, camelVersion: string, ref: string): (c: Component)
    requires ref in ArtifactRefs(ms, camelVersion)
    ensures c.ref == ref
  {
    if Yields(ms[0], camelVersion, ref) then Read(ms[0].dependency, camelVersion).component
    else First(ms[1..], camelVersion, ref)
  }

  predicate IsFirst(ms: seq<Mention>, camelVersion: string, ref: string, i: int) {
    0 <= i < |ms| && Yields(ms[i], camelVersion, ref) && forall j :: 0 <= j < i ==> !Yields(ms[j], camelVersion, ref)
  }

  lemma {:induction false} FirstMention(ms: seq<Mention>, camelVersion: string, ref: string) returns (i: nat)
    requires ref in ArtifactRefs(ms, camelVersion)
    ensures IsFirst(ms, camelVersion, ref, i)
    ensures Read(ms[i].dependency, camelVersion) == Artifact(First(ms, camelVersion, ref))
  {
    hide Read;
    if Yields(ms[0], camelVersion, ref) {
      i := 0;
    } else {
      i := FirstMention(ms[1..], camelVersion, ref);
      i := i + 1;
    }
  }

  predicate AllParse(ms: seq<Mention>, camelVersion: string) {
    forall m :: m in ms ==> !Read(m.dependency, camelVersion).Unparsable?
  }

  // ----- the document

  function RootComponent(projectVersion: string): Component {
    Component(ROOT_REF, Some("org.apache.camel.kamelets"), "camel-kamelets", projectVersion, None, [])
  }

  function KameletComponent(name: string, projectVersion: string): Component {
    Component(KAMELET_REF_PREFIX + name, None, name, projectVersion, None, [])
  }

  function KameletRefs(names: set<string>): set<string> {
    set n | n in names :: KAMELET_REF_PREFIX + n
  }

  function KameletComponents(names: seq<string>, projectVersion: string): seq<Component> {
    seq(|names|, i requires 0 <= i < |names| => KameletComponent(names[i], projectVersion))
  }

  function ArtifactComponents(refs: seq<string>, ms: seq<Mention>, camelVersion: string): seq<Component>
    requires forall ref :: ref in refs ==> ref in ArtifactRefs(ms, camelVersion)
  {
    seq(|refs|, i requires 0 <= i < |refs| => First(ms, camelVersion, refs[i]))
  }

  ghost function KameletEdges(names: seq<string>, ms: seq<Mention>, camelVersion: string): seq<Dependency> {
    seq(|names|, i requires 0 <= i < |names| =>
      Dependency(KAMELET_REF_PREFIX + names[i], Sorted(RefsOf(ms, names[i], camelVersion))))
  }

  function ArtifactEdges(refs: seq<string>): seq<Dependency> {
    seq(|refs|, i requires 0 <= i < |refs| => Dependency(refs[i], []))
  }

  ghost function Document(ks: seq<Declaration>, projectVersion: string, camelVersion: string): Bom {
    var ms, names := Mentions(ks), Names(ks);
    var refs := ArtifactRefs(ms, camelVersion);
    SortedLists(refs);
    Bom(
      RootComponent(projectVersion),
      KameletComponents(Sorted(names), projectVersion) + ArtifactComponents(Sorted(refs), ms, camelVersion),
      [Dependency(ROOT_REF, Sorted(KameletRefs(names)))] + KameletEdges(Sorted(names), ms, camelVersion)
        + ArtifactEdges(Sorted(refs)))
  }

  function Declarations(ks: seq<KameletDocuments.KameletInfo>): seq<Declaration> {
    seq(|ks|, i requires 0 <= i < |ks| => Declaration(ks[i].name, KameletDocuments.Dependencies(ks[i])))
  }

  // ----- writing it

  /** The two sorted maps the writer fills, after the given mentions. */
  ghost predicate Collected(
      ms: seq<Mention>, camelVersion: string, names: set<string>,
      artifacts: map<string, Component>, declares: map<string, set<string>>) {
    && artifacts.Keys == ArtifactRefs(ms, camelVersion)
    && (forall ref :: ref in artifacts ==> artifacts[ref] == First(ms, camelVersion, ref))
    && declares.Keys == names
    && (forall n :: n in declares ==> declares[n] == RefsOf(ms, n, camelVersion))
    && (forall m :: m in ms ==> m.kamelet in names)
  }

  lemma {:induction false} FirstOfLonger(ms: seq<Mention>, m: Mention, camelVersion: string, ref: string)
    requires ref in ArtifactRefs(ms + [m], camelVersion)
    ensures ref in ArtifactRefs(ms, camelVersion) ==>
              First(ms + [m], camelVersion, ref) == First(ms, camelVersion, ref)
    ensures ref !in ArtifactRefs(ms, camelVersion) ==>
              Read(m.dependency, camelVersion) == Artifact(First(ms + [m], camelVersion, ref))
  {
    hide Read;
    if ms != [] && !Yields(ms[0], camelVersion, ref) {
      assert (ms + [m])[1..] == ms[1..] + [m];
      FirstOfLonger(ms[1..], m, camelVersion, ref);
    }
  }

  lemma RefsOfLonger(ms: seq<Mention>, m: Mention, camelVersion: string)
    ensures var r := Read(m.dependency, camelVersion);
            var more := if r.Artifact? then {r.component.ref} else {};
            && ArtifactRefs(ms + [m], camelVersion) == ArtifactRefs(ms, camelVersion) + more
            && (forall n {:trigger RefsOf(ms + [m], n, camelVersion)} ::
                  RefsOf(ms + [m], n, camelVersion) ==
                  RefsOf(ms, n, camelVersion) + if n == m.kamelet then more else {})
  {
    hide Read;
  }

  /** What the writer does to its maps for one readable dependency. */
  lemma CollectOne(
      ms: seq<Mention>, m: Mention, camelVersion: string, names: set<string>,
      artifacts: map<string, Component>, declares: map<string, set<string>>,
      artifacts': map<string, Component>, declares': map<string, set<string>>)
    requires Collected(ms, camelVersion, names, artifacts, declares) && m.kamelet in names
    requires var r := Read(m.dependency, camelVersion);
             if r.Artifact? then
               && artifacts' == (if r.component.ref in artifacts then artifacts
                                 else artifacts[r.component.ref := r.component])
               && declares' == declares[m.kamelet := declares[m.kamelet] + {r.component.ref}]
             else artifacts' == artifacts && declares' == declares
    ensures Collected(ms + [m], camelVersion, names, artifacts', declares')
  {
    hide Read, First, ArtifactRefs, RefsOf;
    RefsOfLonger(ms, m, camelVersion);
    forall ref | ref in artifacts'
      ensures ref in ArtifactRefs(ms + [m], camelVersion) && artifacts'[ref] == First(ms + [m], camelVersion, ref)
    {
      FirstOfLonger(ms, m, camelVersion, ref);
    }
    assert artifacts'.Keys == ArtifactRefs(ms + [m], camelVersion);
    forall n | n in declares'
      ensures declares'[n] == RefsOf(ms + [m], n, camelVersion)
    {
      assert RefsOf(ms + [m], n, camelVersion) == RefsOf(ms + [m], n, camelVersion);
    }
  }

  lemma CollectName(
      ms: seq<Mention>, name: string, camelVersion: string, names: set<string>,
      artifacts: map<string, Component>, declares: map<string, set<string>>)
    requires Collected(ms, camelVersion, names, artifacts, declares) && name !in names
    ensures Collected(ms, camelVersion, names + {name}, artifacts, declares[name := {}])
  {
    hide Read, First;
    assert RefsOf(ms, name, camelVersion) == {};
  }

  /** Reads the dependencies of one Kamelet, whose name is entered already. */
  method CollectKamelet(
      k: Declaration, camelVersion: string, artifacts0: map<string, Component>, declares0: map<string, set<string>>,
      ghost before: seq<Mention>, ghost names: set<string>)
    returns (artifacts: map<string, Component>, declares: map<string, set<string>>, failed: Option<nat>)
    requires k.name in names && AllParse(before, camelVersion)
    requires Collected(before, camelVersion, names, artifacts0, declares0)
    ensures match failed
            case None =>
              AllParse(before + MentionsOf(k), camelVersion) &&
              Collected(before + MentionsOf(k), camelVersion, names, artifacts, declares)
            case Some(j) =>
              && j < |k.dependencies|
              && Read(k.dependencies[j], camelVersion).Unparsable?
              && AllParse(before + MentionsOf(k)[..j], camelVersion)
  {
    hide Read, First, Collected, AllParse;
    artifacts, declares, failed := artifacts0, declares0, None;
    assert before + MentionsOf(k)[..0] == before;
    var deps := k.dependencies;
    var j := 0;
    while j < |deps|
      invariant 0 <= j <= |deps|
      invariant AllParse(before + MentionsOf(k)[..j], camelVersion)
      invariant Collected(before + MentionsOf(k)[..j], camelVersion, names, artifacts, declares)
    {
      ghost var seen, m := before + MentionsOf(k)[..j], Mention(k.name, deps[j]);
      assert before + MentionsOf(k)[..j + 1] == seen + [m];
      ParsesOneMore(seen, m, camelVersion);
      CollectedNames(seen, camelVersion, names, artifacts, declares);
      ghost var artifacts1, declares1 := artifacts, declares;
      match Read(deps[j], camelVersion) {
        case Unparsable =>
          failed := Some(j);
          return;
        case Artifact(component) =>
          if component.ref !in artifacts {
            artifacts := artifacts[component.ref := component];
          }
          declares := declares[k.name := declares[k.name] + {component.ref}];
        case Ignored =>
      }
      CollectOne(seen, m, camelVersion, names, artifacts1, declares1, artifacts, declares);
      j := j + 1;
    }
    assert MentionsOf(k)[..j] == MentionsOf(k);
  }

  lemma CollectedNames(
      ms: seq<Mention>, camelVersion: string, names: set<string>,
      artifacts: map<string, Component>, declares: map<string, set<string>>)
    requires Collected(ms, camelVersion, names, artifacts, declares)
    ensures declares.Keys == names
  {}

  /** Reads the dependencies of every Kamelet. */
  method Collect(ks: seq<KameletDocuments.KameletInfo>, camelVersion: string)
    returns (artifacts: map<string, Component>, declares: map<string, set<string>>, failed: Option<string>)
    ensures failed.None? <==> AllParse(Mentions(Declarations(ks)), camelVersion)
    ensures failed.Some? ==> FirstFailure(Mentions(Declarations(ks)), camelVersion, failed.value)
    ensures failed.None? ==>
              Collected(Mentions(Declarations(ks)), camelVersion, Names(Declarations(ks)), artifacts, declares)
  {
    artifacts, declares, failed := map[], map[], None;
    ghost var ds := Declarations(ks);
    assert Collected([], camelVersion, {}, artifacts, declares);
    var i := 0;
    hide Read, First, Collected, FirstFailure, MentionsOf;
    while i < |ks|
      invariant 0 <= i <= |ks|
      invariant AllParse(Mentions(ds[..i]), camelVersion)
      invariant Collected(Mentions(ds[..i]), camelVersion, Names(ds[..i]), artifacts, declares)
    {
      var k := Declaration(ks[i].name, KameletDocuments.Dependencies(ks[i]));
      ghost var before, names := Mentions(ds[..i]), Names(ds[..i + 1]);
      NextKamelet(ds, i);
      CollectedNames(before, camelVersion, Names(ds[..i]), artifacts, declares);
      if k.name !in declares {
        CollectName(before, k.name, camelVersion, Names(ds[..i]), artifacts, declares);
        declares := declares[k.name := {}];
      } else {
        assert Names(ds[..i]) == names;
      }
      var bad;
      artifacts, declares, bad := CollectKamelet(k, camelVersion, artifacts, declares, before, names);
      if bad.Some? {
        FailureOf(ds, i, bad.value, camelVersion);
        failed := Some(k.dependencies[bad.value]);
        return;
      }
      i := i + 1;
    }
    assert ds[..i] == ds;
  }

  /** The dependency is the first one that cannot be read. */
  ghost predicate FirstFailure(ms: seq<Mention>, camelVersion: string, dep: string) {
    && Read(dep, camelVersion).Unparsable?
    && exists i :: 0 <= i < |ms| && ms[i].dependency == dep && AllParse(ms[..i], camelVersion)
  }

  lemma NextKamelet(ds: seq<Declaration>, i: nat)
    requires i < |ds|
    ensures Mentions(ds[..i + 1]) == Mentions(ds[..i]) + MentionsOf(ds[i])
    ensures Names(ds[..i + 1]) == Names(ds[..i]) + {ds[i].name}
  {
    assert ds[..i + 1][..i] == ds[..i];
    assert ds[..i + 1] == ds[..i] + [ds[i]];
  }

  lemma ParsesOneMore(ms: seq<Mention>, m: Mention, camelVersion: string)
    ensures AllParse(ms + [m], camelVersion) <==>
            AllParse(ms, camelVersion) && !Read(m.dependency, camelVersion).Unparsable?
  {
    hide Read;
    if AllParse(ms + [m], camelVersion) {
      forall x | x in ms
        ensures !Read(x.dependency, camelVersion).Unparsable?
      {
        assert x in ms + [m];
      }
      assert m in ms + [m];
    }
  }

  lemma FailureOf(ds: seq<Declaration>, i: nat, j: nat, camelVersion: string)
    requires i < |ds| && j < |ds[i].dependencies|
    requires AllParse(Mentions(ds[..i]) + MentionsOf(ds[i])[..j], camelVersion)
    requires Read(ds[i].dependencies[j], camelVersion).Unparsable?
    ensures FirstFailure(Mentions(ds), camelVersion, ds[i].dependencies[j])
    ensures !AllParse(Mentions(ds), camelVersion)
  {
    hide Read, Mentions;
    var before := Mentions(ds[..i]);
    MentionsOfPrefix(ds, i);
    assert Mentions(ds)[|before| + j] == MentionsOf(ds[i])[j];
    assert Mentions(ds)[..|before| + j] == before + MentionsOf(ds[i])[..j];
  }

  /** The mentions of a Kamelet stand right after those of the ones before it. */
  lemma {:induction false} MentionsOfPrefix(ks: seq<Declaration>, i: nat)
    requires i < |ks|
    ensures Mentions(ks[..i]) + MentionsOf(ks[i]) <= Mentions(ks)
  {
    var last := |ks| - 1;
    if i < last {
      MentionsOfPrefix(ks[..last], i);
      assert ks[..last][..i] == ks[..i];
    }
  }

  /** The Kamelet part of the document. */
  method EmitKamelets(
      declares: map<string, set<string>>, projectVersion: string, ghost ms: seq<Mention>, ghost camelVersion: string)
    returns (components: seq<Component>, dependencies: seq<Dependency>, kameletRefs: set<string>)
    requires forall n :: n in declares ==> declares[n] == RefsOf(ms, n, camelVersion)
    ensures components == KameletComponents(Sorted(declares.Keys), projectVersion)
    ensures dependencies == KameletEdges(Sorted(declares.Keys), ms, camelVersion)
    ensures kameletRefs == KameletRefs(declares.Keys)
  {
    components, dependencies, kameletRefs := [], [], {};
    var names := SortedElements(declares.Keys);
    SortedLists(declares.Keys);
    hide RefsOf, Sorted, Ascending, NoRepeats;
    var i := 0;
    while i < |names|
      invariant 0 <= i <= |names|
      invariant components == KameletComponents(names[..i], projectVersion)
      invariant dependencies == KameletEdges(names[..i], ms, camelVersion)
      invariant kameletRefs == set n | n in names[..i] :: KAMELET_REF_PREFIX + n
    {
      var name := names[i];
      assert name in declares.Keys;
      var ref := KAMELET_REF_PREFIX + name;
      kameletRefs := kameletRefs + {ref};
      components := components + [KameletComponent(name, projectVersion)];
      var dependsOn := SortedElements(declares[name]);
      dependencies := dependencies + [Dependency(ref, dependsOn)];
      assert names[..i + 1] == names[..i] + [name];
      i := i + 1;
    }
    assert names[..i] == names;
  }

  /** The artifact part of the document. */
  method EmitArtifacts(artifacts: map<string, Component>, ghost ms: seq<Mention>, ghost camelVersion: string)
    returns (components: seq<Component>, dependencies: seq<Dependency>)
    requires artifacts.Keys == ArtifactRefs(ms, camelVersion)
    requires forall ref :: ref in artifacts ==> artifacts[ref] == First(ms, camelVersion, ref)
    ensures forall ref :: ref in Sorted(artifacts.Keys) ==> ref in ArtifactRefs(ms, camelVersion)
    ensures components == ArtifactComponents(Sorted(artifacts.Keys), ms, camelVersion)
    ensures dependencies == ArtifactEdges(Sorted(artifacts.Keys))
  {
    components, dependencies := [], [];
    var refs := SortedElements(artifacts.Keys);
    SortedLists(artifacts.Keys);
    hide ArtifactRefs, First, Sorted;
    var i := 0;
    while i < |refs|
      invariant 0 <= i <= |refs| && |components| == i && |dependencies| == i
      invariant forall j :: 0 <= j < i ==> refs[j] in artifacts && components[j] == artifacts[refs[j]]
      invariant forall j :: 0 <= j < i ==> dependencies[j] == Dependency(refs[j], [])
    {
      assert refs[i] in artifacts.Keys;
      components := components + [artifacts[refs[i]]];
      dependencies := dependencies + [Dependency(refs[i], [])];
      i := i + 1;
    }
  }

  /** Writes the document, unless some dependency cannot be read. */
  method Execute(ks: seq<KameletDocuments.KameletInfo>, projectVersion: string, camelVersion: string)
    returns (outcome: Outcome)
    ensures outcome.Written? <==> AllParse(Mentions(Declarations(ks)), camelVersion)
    ensures outcome.Written? ==> outcome.bom == Document(Declarations(ks), projectVersion, camelVersion)
    ensures outcome.CannotParse? ==> FirstFailure(Mentions(Declarations(ks)), camelVersion, outcome.dependency)
  {
    hide Read, First, Mentions, Declarations, AllParse, FirstFailure, ArtifactRefs, RefsOf, Names;
    var artifacts, declares, failed := Collect(ks, camelVersion);
    if failed.Some? {
      return CannotParse(failed.value);
    }
    ghost var ms := Mentions(Declarations(ks));
    hide KameletComponents, KameletEdges, ArtifactComponents, ArtifactEdges, Sorted;
    var components, dependencies, kameletRefs := EmitKamelets(declares, projectVersion, ms, camelVersion);
    var artifactComponents, artifactEdges := EmitArtifacts(artifacts, ms, camelVersion);
    var rootDependsOn := SortedElements(kameletRefs);
    dependencies := [Dependency(ROOT_REF, rootDependsOn)] + dependencies + artifactEdges;
    outcome := Written(Bom(RootComponent(projectVersion), components + artifactComponents, dependencies));
  }
}
