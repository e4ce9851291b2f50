/** The fields of what is written, with every constant spelled out. */
module DocumentFields {
  import opened Options
  import opened Text
  import opened StringOrder
  import opened PercentEncoding
  import EncodedText
  import opened Sbom
  import SbomTheorems

  // ----- the components

  /** A Kamelet has the version of the project and no package URL: none is registered for it. */
  predicate ShowsKamelet(c: Component, projectVersion: string) {
    && c.ref == "kamelet:" + c.name && c.group == None && c.version == projectVersion && c.purl == None
    && c.properties == []
  }

  /** An artifact is referred to by its package URL, and marked when the runtime decides its version. */
  predicate ShowsArtifact(c: Component, camelVersion: string) {
    && c.group.Some? && c.purl == Some(c.ref)
    && c.ref == "pkg:maven/" + Enc(c.group.value) + "/" + Enc(c.name) + "@" + Enc(c.version)
    && (c.properties == [] || (
         && c.properties == [Property("camel.apache.org/versioned-by", "runtime")]
         && c.group == Some("org.apache.camel") && "camel-" <= c.name && c.version == camelVersion))
  }

  lemma DescribedShows(c: Component, dep: string, camelVersion: string)
    requires SbomTheorems.Describes(c, dep, camelVersion)
    ensures ShowsArtifact(c, camelVersion)
  {
    hide Enc;
  }

  /** The catalog and the Kamelets are described by the project alone, the artifacts by their
      coordinates. */
  lemma FieldsOfDocument(ks: seq<Declaration>, projectVersion: string, camelVersion: string)
    ensures var bom, n := Document(ks, projectVersion, camelVersion), |Sorted(Names(ks))|;
            && bom.root == Component("camel-kamelets-catalog", Some("org.apache.camel.kamelets"), "camel-kamelets",
                                     projectVersion, None, [])
            && n <= |bom.components|
            && (forall i :: 0 <= i < n ==> ShowsKamelet(bom.components[i], projectVersion))
            && (forall i :: n <= i < |bom.components| ==> ShowsArtifact(bom.components[i], camelVersion))
  {
    var bom, n := Document(ks, projectVersion, camelVersion), |Sorted(Names(ks))|;
    SbomTheorems.DocumentIsLaidOut(ks, projectVersion, camelVersion);
    var refs := SbomTheorems.ArtifactList(ks, camelVersion);
    forall i | n <= i < |bom.components|
      ensures ShowsArtifact(bom.components[i], camelVersion)
    {
      hide Document, Mentions, First, Sorted, ShowsArtifact, Names, ArtifactRefs, RefsOf, SbomTheorems.Describes;
      var ref := refs[i - n];
      var j := SbomTheorems.FirstDescribes(Mentions(ks), camelVersion, ref);
      DescribedShows(First(Mentions(ks), camelVersion, ref), Mentions(ks)[j].dependency, camelVersion);
    }
    hide Document, Mentions, First, Sorted, ShowsArtifact, Names, ArtifactRefs, RefsOf;
  }

  // ----- what the kinds of dependencies read as

  /** The three parts of a coordinate, the component of the runtime, and what is passed over. */
  lemma ReadMeaning(group: string, name: string, version: string, component: string, camelVersion: string)
    ensures ':' !in group && ':' !in name && ':' !in version && version != "" ==>
              ReadsAs("mvn:" + (group + (":" + (name + (":" + version)))), camelVersion, group, name, version, [])
    ensures ReadsAs("camel:" + component, camelVersion, "org.apache.camel", "camel-" + component, camelVersion,
                    [Property("camel.apache.org/versioned-by", "runtime")])
  {
    if ':' !in group && ':' !in name && ':' !in version && version != "" {
      SbomTheorems.MavenReads(group, name, version, camelVersion);
    }
    SbomTheorems.CamelReads(component, camelVersion);
    hide Enc, Read;
  }

  predicate ReadsAs(
      dep: string, camelVersion: string, group: string, name: string, version: string, properties: seq<Property>)
  {
    var r, purl := Read(dep, camelVersion), "pkg:maven/" + Enc(group) + "/" + Enc(name) + "@" + Enc(version);
    r == Artifact(Component(purl, Some(group), name, version, Some(purl), properties))
  }

  lemma OtherReads(dep: string, camelVersion: string)
    ensures Read(dep, camelVersion).Ignored? <==> !("mvn:" <= dep) && !("camel:" <= dep)
    ensures Read(dep, camelVersion).Unparsable? <==> "mvn:" <= dep && |Split(dep[4..], ':')| < 3
  {
    hide Split;
  }

  // ----- one document

  lemma MentionsOfOne(name: string, dep: string)
    ensures Mentions([Declaration(name, [dep])]) == [Mention(name, dep)]
  {
    var k := Declaration(name, [dep]);
    assert [k][..0] == [];
    assert Mentions([]) == [];
  }

  lemma RefsOfOne(m: Mention, camelVersion: string, c: Component)
    requires Read(m.dependency, camelVersion) == Artifact(c)
    ensures ArtifactRefs([m], camelVersion) == {c.ref} && RefsOf([m], m.kamelet, camelVersion) == {c.ref}
    ensures First([m], camelVersion, c.ref) == c
  {
    hide Read;
  }

  /** The document of a catalog with one Kamelet, which needs one artifact. */
  lemma DocumentOfOne(name: string, dep: string, projectVersion: string, camelVersion: string, c: Component)
    requires Read(dep, camelVersion) == Artifact(c)
    ensures var bom := Document([Declaration(name, [dep])], projectVersion, camelVersion);
            && bom.root == Component("camel-kamelets-catalog", Some("org.apache.camel.kamelets"), "camel-kamelets",
                                     projectVersion, None, [])
            && bom.components == [Component("kamelet:" + name, None, name, projectVersion, None, [])] + [c]
            && bom.dependencies == [Dependency("camel-kamelets-catalog", ["kamelet:" + name])]
                                   + [Dependency("kamelet:" + name, [c.ref])] + [Dependency(c.ref, [])]
  {
    hide Read, Mentions, Sorted, First, Names, ArtifactRefs, RefsOf, KameletRefs, KameletComponents,
      ArtifactComponents, KameletEdges, ArtifactEdges;
    MentionsOfOne(name, dep);
    PartsOfOne(Mention(name, dep), projectVersion, camelVersion, c);
    SortedOfOne(name);
    SortedOfOne("kamelet:" + name);
    SortedOfOne(c.ref);
    NamesOfOne(name, dep);
  }

  lemma NamesOfOne(name: string, dep: string)
    ensures Names([Declaration(name, [dep])]) == {name}
    ensures KameletRefs({name}) == {"kamelet:" + name}
  {}

  lemma PartsOfOne(m: Mention, projectVersion: string, camelVersion: string, c: Component)
    requires Read(m.dependency, camelVersion) == Artifact(c)
    ensures ArtifactRefs([m], camelVersion) == {c.ref}
    ensures KameletComponents([m.kamelet], projectVersion) ==
            [Component("kamelet:" + m.kamelet, None, m.kamelet, projectVersion, None, [])]
    ensures ArtifactComponents([c.ref], [m], camelVersion) == [c]
    ensures KameletEdges([m.kamelet], [m], camelVersion) == [Dependency("kamelet:" + m.kamelet, [c.ref])]
    ensures ArtifactEdges([c.ref]) == [Dependency(c.ref, [])]
  {
    hide Read, Sorted, First, ArtifactRefs, RefsOf;
    RefsOfOne(m, camelVersion, c);
    SortedOfOne(c.ref);
  }

  /** What a component of the runtime is described by in such a document. */
  lemma CoreReads()
    ensures var ref := "pkg:maven/" + "org.apache.camel" + "/" + "camel-core" + "@" + "4.20.0";
            Read("camel:core", "4.20.0") ==
            Artifact(Component(ref, Some("org.apache.camel"), "camel-core", "4.20.0", Some(ref),
                               [Property("camel.apache.org/versioned-by", "runtime")]))
  {
    hide Read, Enc;
    assert "camel:core" == "camel:" + "core";
    assert "camel-core" == "camel-" + "core";
    ReadMeaning("", "", "", "core", "4.20.0");
    KeepsCamelGroup();
    KeepsCore();
    KeepsRelease();
  }

  lemma SortedOfOne(x: string)
    ensures Sorted({x}) == [x]
  {
    SortedIsUnique([x], {x});
  }

  lemma KeepsCamelGroup()
    ensures Enc("org.apache.camel") == "org.apache.camel"
  {
    hide Enc;
    EncodedText.EncKeeps("org.apache.camel");
  }

  lemma KeepsCore()
    ensures Enc("camel-core") == "camel-core"
  {
    hide Enc;
    EncodedText.EncKeeps("camel-core");
  }

  lemma KeepsRelease()
    ensures Enc("4.20.0") == "4.20.0"
  {
    hide Enc;
    EncodedText.EncKeeps("4.20.0");
  }
}
