/** What the validator's acceptance means for the bill of materials. */
module ValidatedCatalog {
  import opened Text
  import opened KameletDocuments
  import opened CatalogRules
  import Theorems = CatalogTheorems
  import opened Sbom
  import SbomTheorems
  import opened SbomInversion

  /** The coordinate has a group, an artifact and a version. */
  predicate ThreeParts(dep: string) {
    StartsWith(dep, MVN_PREFIX) ==> |Split(dep[|MVN_PREFIX|..], ':')| >= 3
  }

  lemma ReadsExactly(dep: string, camelVersion: string)
    ensures Read(dep, camelVersion).Unparsable? <==> !ThreeParts(dep)
    ensures GoodDependency(dep) && Read(dep, camelVersion).Ignored? ==> StartsWith(dep, "github:apache/")
  {}

  lemma DependencyIsMentioned(ks: seq<KameletInfo>, dep: string)
    ensures (exists k :: k in ks && dep in Dependencies(k)) <==>
            exists m :: m in Mentions(Declarations(ks)) && m.dependency == dep
  {
    var ds := Declarations(ks);
    hide Dependencies, Mentions;
    if k :| k in ks && dep in Dependencies(k) {
      var i :| 0 <= i < |ks| && ks[i] == k;
      assert ds[i] in ds;
      SbomTheorems.MentionsMeaning(ds, Mention(k.name, dep));
    }
    if m :| m in Mentions(ds) && m.dependency == dep {
      SbomTheorems.MentionsMeaning(ds, m);
      var x :| x in ds && x.name == m.kamelet && m.dependency in x.dependencies;
      var i :| 0 <= i < |ds| && ds[i] == x;
      assert ks[i] in ks;
    }
  }

  ghost predicate AllThreeParts(ks: seq<KameletInfo>) {
    forall k, dep :: k in ks && dep in Dependencies(k) ==> ThreeParts(dep)
  }

  /** A catalog can be written exactly when all its mvn dependencies have three parts. */
  lemma WritableMeaning(ks: seq<KameletInfo>, camelVersion: string)
    ensures AllParse(Mentions(Declarations(ks)), camelVersion) <==> AllThreeParts(ks)
  {
    hide Declarations, Mentions, Dependencies, Read, ThreeParts;
    forall dep
      ensures Read(dep, camelVersion).Unparsable? <==> !ThreeParts(dep)
      ensures (exists k :: k in ks && dep in Dependencies(k)) <==>
              exists m :: m in Mentions(Declarations(ks)) && m.dependency == dep
    {
      ReadsExactly(dep, camelVersion);
      DependencyIsMentioned(ks, dep);
    }
  }

  /** The rules the validator does apply leave nothing else open: of a catalog it accepts, every
      dependency with three parts is an artifact or a reference to a repository. */
  lemma AcceptedIsWritable(ks: seq<KameletInfo>, c: Casing, camelVersion: string)
    requires Theorems.WellFormed(ks, c)
    ensures AllParse(Mentions(Declarations(ks)), camelVersion) <==> AllThreeParts(ks)
    ensures forall k, dep :: k in ks && dep in Dependencies(k) && ThreeParts(dep) ==>
              Read(dep, camelVersion).Artifact? || StartsWith(dep, "github:apache/")
  {
    WritableMeaning(ks, camelVersion);
    hide AllParse, AllThreeParts, ThreeParts, Read, Dependencies, Theorems.WellFormed, StartsWith;
    forall k, dep | k in ks && dep in Dependencies(k) && ThreeParts(dep)
      ensures Read(dep, camelVersion).Artifact? || StartsWith(dep, "github:apache/")
    {
      var i :| 0 <= i < |ks| && ks[i] == k;
      AcceptedDependency(ks, c, i, dep);
      ReadsExactly(dep, camelVersion);
    }
  }

  lemma AcceptedDependency(ks: seq<KameletInfo>, c: Casing, i: nat, dep: string)
    requires Theorems.WellFormed(ks, c) && i < |ks| && dep in Dependencies(ks[i])
    ensures GoodDependency(dep)
  {
    hide GoodDependency, Dependencies, Theorems.StructureOkAll, Theorems.PairwiseDistinct, Theorems.OneVersion;
    assert Theorems.ConventionsOk(ks[i]);
    hide Theorems.WellAnnotated, Theorems.WellDescriptored, Theorems.UsesWhatItDeclares, Theorems.WellConnected;
    var j :| 0 <= j < |Dependencies(ks[i])| && Dependencies(ks[i])[j] == dep;
    GoodPrefixes(dep);
  }

  lemma GoodPrefixes(dep: string)
    requires Theorems.GoodPrefix(dep)
    ensures GoodDependency(dep)
  {}

  // ----- a catalog that is accepted and cannot be written

  lemma GetOfOne(e: Entry, key: string)
    ensures Get([e], key) == if e.key == key then e.value else Null
  {}

  lemma GetOfTwo(e: Entry, f: Entry, key: string)
    ensures Get([e, f], key) == if e.key == key then e.value else if f.key == key then f.value else Null
  {
    assert [e, f][1..] == [f];
    GetOfOne(f, key);
  }

  lemma GetOfThree(e: Entry, f: Entry, g: Entry, key: string)
    ensures Get([e, f, g], key) ==
            if e.key == key then e.value else if f.key == key then f.value else if g.key == key then g.value else Null
  {
    assert [e, f, g][1..] == [f, g];
    GetOfTwo(f, g, key);
  }

  const LABELS := Map([Entry(TYPE_LABEL, Str("action"))])
  const ANNOTATIONS := Map([
    Entry(ICON_ANNOTATION, Str("icon")), Entry(VERSION_ANNOTATION, Str("1.0")),
    Entry(PROVIDER_ANNOTATION, Str(EXPECTED_PROVIDER))])
  const METADATA := Map([
    Entry("labels", LABELS), Entry("annotations", ANNOTATIONS)])
  const DEFINITION := Map([
    Entry("title", Str("X Action")), Entry("description", Str("Does x")),
    Entry("type", Str("object"))])
  const SPEC := Map([
    Entry("definition", DEFINITION), Entry("template", Map([])),
    Entry("dependencies", List([Str("mvn:a")]))])

  /** An action without properties that depends on a coordinate of one part. */
  const UNREADABLE := KameletInfo(
    "x-action", "x-action.kamelet.yaml", "kamelets/x-action.kamelet.yaml",
    Map([Entry("metadata", METADATA), Entry("spec", SPEC)]))

  lemma UnreadableParts()
    ensures Metadata(UNREADABLE) == METADATA && Spec(UNREADABLE) == SPEC
    ensures Label(UNREADABLE, TYPE_LABEL) == "action"
  {
    GetOfTwo(Entry("metadata", METADATA), Entry("spec", SPEC), "metadata");
    GetOfTwo(Entry("metadata", METADATA), Entry("spec", SPEC), "spec");
    GetOfTwo(Entry("labels", LABELS), Entry("annotations", ANNOTATIONS), "labels");
    GetOfOne(Entry(TYPE_LABEL, Str("action")), TYPE_LABEL);
  }

  lemma UnreadableSpec()
    ensures Definition(UNREADABLE) == DEFINITION && Template(UNREADABLE) == Map([])
    ensures Dependencies(UNREADABLE) == ["mvn:a"]
  {
    UnreadableParts();
    hide Metadata, Spec, Label;
    var e, f := Entry("definition", DEFINITION), Entry("template", Map([]));
    var g := Entry("dependencies", List([Str("mvn:a")]));
    GetOfThree(e, f, g, "definition");
    GetOfThree(e, f, g, "template");
    GetOfThree(e, f, g, "dependencies");
    assert Texts(List([Str("mvn:a")])) == ["mvn:a"];
  }

  lemma UnreadableDefinition()
    ensures Title(UNREADABLE) == "X Action" && Description(UNREADABLE) == "Does x"
    ensures ToString(Lookup(Definition(UNREADABLE), "type")) == "object"
    ensures Properties(UNREADABLE) == [] && Required(UNREADABLE) == []
  {
    UnreadableSpec();
    hide Definition, Template, Dependencies;
    var e, f := Entry("title", Str("X Action")), Entry("description", Str("Does x"));
    var g := Entry("type", Str("object"));
    GetOfThree(e, f, g, "title");
    GetOfThree(e, f, g, "description");
    GetOfThree(e, f, g, "type");
    GetOfThree(e, f, g, "properties");
    GetOfThree(e, f, g, "required");
  }

  lemma UnreadableAnnotations()
    ensures Theorems.WellAnnotated(UNREADABLE)
  {
    UnreadableParts();
    hide Metadata, Label;
    var labels := Entry("labels", LABELS);
    GetOfTwo(labels, Entry("annotations", ANNOTATIONS), "annotations");
    var e := Entry(ICON_ANNOTATION, Str("icon"));
    var f := Entry(VERSION_ANNOTATION, Str("1.0"));
    var g := Entry(PROVIDER_ANNOTATION, Str(EXPECTED_PROVIDER));
    GetOfThree(e, f, g, ICON_ANNOTATION);
    GetOfThree(e, f, g, VERSION_ANNOTATION);
    GetOfThree(e, f, g, PROVIDER_ANNOTATION);
  }

  lemma UnreadableStem()
    ensures Stem("x-action.kamelet.yaml") == "x-action"
  {
    hide Stem;
    Theorems.StemCutsSuffix("x-action", "");
    assert "x-action" + FILE_SUFFIX + "" == "x-action.kamelet.yaml" && "x-action" + "" == "x-action";
  }

  lemma UnreadableSuffix()
    ensures EndsWith("x-action", "-" + "action")
  {
    assert "x-action"[1..] == "-action" == "-" + "action";
  }

  lemma UnreadableName()
    ensures Theorems.WellNamed(UNREADABLE)
  {
    UnreadableParts();
    UnreadableStem();
    UnreadableSuffix();
    hide Label, Stem, EndsWith;
  }

  lemma ActionTitle(c: Casing)
    requires c.upper("a") == "A"
    ensures EndsWith("X Action", ExpectedTitleSuffix("action", c))
  {
    assert "action"[..1] == "a" && "action"[1..] == "ction" && "X Action"[2..] == "Action" == "A" + "ction";
  }

  lemma UnreadableParameters(c: Casing)
    requires c.upper("a") == "A"
    ensures Theorems.WellParameterized(UNREADABLE, c)
  {
    UnreadableParts();
    UnreadableSpec();
    UnreadableDefinition();
    ActionTitle(c);
    hide Label, Definition, Template, Title, Description, Properties, Required, Lookup, ToString, EndsWith,
      ExpectedTitleSuffix, Theorems.WellDescribedProperty, PropertyKeys;
  }

  lemma UnreadableConventions()
    ensures Theorems.ConventionsOk(UNREADABLE)
  {
    UnreadableParts();
    UnreadableSpec();
    UnreadableDefinition();
    UnreadableAnnotations();
    hide Label, Definition, Dependencies, Properties, Theorems.WellAnnotated;
    assert Template(UNREADABLE).entries == [];
    hide Template;
    assert Beans(UNREADABLE) == [];
    assert forall name :: !Theorems.Mentions(Map([]), name);
    assert GoodDependency("mvn:a");
  }

  lemma UnreadableIsAccepted(c: Casing)
    requires c.upper("a") == "A"
    ensures Theorems.WellFormed([UNREADABLE], c)
  {
    UnreadableName();
    UnreadableParameters(c);
    UnreadableConventions();
    hide Theorems.WellNamed, Theorems.WellParameterized, Theorems.ConventionsOk, Title, Description, VersionOf;
  }

  lemma OnePartIsTooFew()
    ensures !ThreeParts("mvn:a")
  {
    assert "mvn:a"[|MVN_PREFIX|..] == "a" && ':' !in "a" && StartsWith("mvn:a", MVN_PREFIX);
  }

  /** The validator accepts a catalog that the writer cannot read. */
  lemma AcceptedButUnreadable(c: Casing, camelVersion: string)
    requires c.upper("a") == "A"
    ensures Theorems.WellFormed([UNREADABLE], c)
    ensures !AllParse(Mentions(Declarations([UNREADABLE])), camelVersion)
  {
    UnreadableIsAccepted(c);
    UnreadableSpec();
    OnePartIsTooFew();
    hide Theorems.WellFormed, AllParse, Mentions, Declarations, Dependencies, ThreeParts;
    WritableMeaning([UNREADABLE], camelVersion);
    assert UNREADABLE in [UNREADABLE] && "mvn:a" in Dependencies(UNREADABLE);
    assert !AllThreeParts([UNREADABLE]);
  }

  /** In an accepted catalog every Kamelet has a name, so the attribution leaves nobody out. */
  lemma AcceptedIsFullyAttributed(ks: seq<KameletInfo>, c: Casing, camelVersion: string, ref: string)
    requires Theorems.WellFormed(ks, c)
    ensures forall k :: k in ks ==> k.name != ""
    ensures var ds := Declarations(ks);
            Dependents(ds, camelVersion, ref) == AllDependents(ds, camelVersion, ref)
  {
    var ds := Declarations(ks);
    forall i | 0 <= i < |ks|
      ensures ks[i].name != ""
    {
      AcceptedHasName(ks, c, i);
    }
    hide Theorems.WellFormed, Dependencies, SbomTheorems.DependsOn;
    forall d | d in ds
      ensures d.name != ""
    {
      var i :| 0 <= i < |ds| && ds[i] == d;
    }
    hide Declarations;
    NamelessDependents(ds, camelVersion, ref);
  }

  lemma AcceptedHasName(ks: seq<KameletInfo>, c: Casing, i: nat)
    requires Theorems.WellFormed(ks, c) && i < |ks|
    ensures ks[i].name != ""
  {
    hide Theorems.ConventionsOk, Theorems.WellParameterized, Theorems.PairwiseDistinct, Theorems.OneVersion;
    assert Theorems.StructureOk(ks[i], c);
  }
}
