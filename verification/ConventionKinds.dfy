/** Which errors the later phase owes a catalog, kind by kind. */
module ConventionKinds {
  import opened Text
  import opened StringOrder
  import opened KameletDocuments
  import opened CatalogRules
  import opened CatalogTheorems
  import opened CatalogErrors
  import opened PrintedDocuments

  // ----- one Kamelet

  ghost predicate OwedForAnnotations(k: KameletInfo, x: Error) {
    match x
    case NoIcon(name) => name == k.name && Annotation(k, "camel.apache.org/kamelet.icon") == ""
    case NoVersion(name) => name == k.name && Annotation(k, "camel.apache.org/catalog.version") == ""
    case WrongProvider(name, provider) =>
      && name == k.name && provider == Annotation(k, "camel.apache.org/provider")
      && provider != "Apache Software Foundation"
    case _ => false
  }

  ghost predicate OwedForDescriptors(owner: string, e: Entry, x: Error) {
    var ds := Texts(Lookup(e.value, "x-descriptors"));
    e.value.Map? &&
    match x
    case MissingCredentials(key, name) =>
      && key == e.key && name == owner && TextOf(Lookup(e.value, "format")) == "password"
      && "urn:camel:group:credentials" !in ds
    case DeprecatedDescriptor(key, name) =>
      && key == e.key && name == owner
      && exists i :: 0 <= i < |ds| && StartsWith(ds[i], "urn:alm:descriptor:com.tectonic.ui")
    case DescriptorTwice(key, name, d) => key == e.key && name == owner && ListedTwice(ds, d)
    case _ => false
  }

  ghost predicate OwedForSomeDescriptors(owner: string, properties: seq<Entry>, x: Error) {
    exists i :: 0 <= i < |properties| && OwedForDescriptors(owner, properties[i], x)
  }

  ghost predicate OwedForUse(k: KameletInfo, x: Error) {
    k.name !in USED_PARAMS_EXEMPT &&
    match x
    case Undeclared(p, name) => name == k.name && Mentions(Template(k), p) && !DeclaredName(k, p)
    case Unused(p, name) => name == k.name && DeclaredName(k, p) && !Mentions(Template(k), p)
    case _ => false
  }

  ghost predicate OwedForEndpoints(k: KameletInfo, x: Error) {
    var tp := Label(k, "camel.apache.org/kamelet.type");
    Template(k).Map? &&
    match x
    case MustRouteToSink(name) => name == k.name && tp == "source" && !Holds(Template(k), "kamelet:sink")
    case MustConsumeFromSource(name) => name == k.name && tp == "sink" && !Holds(Template(k), "kamelet:source")
    case _ => false
  }

  ghost predicate OwedForDependencies(k: KameletInfo, x: Error) {
    x.BadDependency? && x.name == k.name && x.dependency in Dependencies(k) && !GoodPrefix(x.dependency)
  }

  ghost predicate OwedForConventions(k: KameletInfo, x: Error) {
    || OwedForAnnotations(k, x) || OwedForUse(k, x) || OwedForEndpoints(k, x) || OwedForDependencies(k, x)
    || (if Definition(k).Map? then OwedForSomeDescriptors(k.name, Properties(k), x) else x == NoDefinition(k.name))
  }

  lemma AnnotationErrorKinds(k: KameletInfo, x: Error)
    ensures x in AnnotationErrors(k) <==> OwedForAnnotations(k, x)
  {
    hide Annotation;
  }

  lemma TwiceKinds(key: string, owner: string, ds: seq<string>, x: Error)
    ensures x in DescriptorTwiceErrors(key, owner, ds) <==>
            x.DescriptorTwice? && x.key == key && x.name == owner && ListedTwice(ds, x.descriptor)
  {
    hide ListedTwice;
    RepeatKinds(ds, d => DescriptorTwice(key, owner, d), |ds|, x);
    assert ds[..|ds|] == ds;
  }

  lemma OneDescriptorErrorKinds(owner: string, e: Entry, x: Error)
    ensures x in PropertyDescriptorErrors(owner, e) <==> OwedForDescriptors(owner, e, x)
  {
    hide ListedTwice, Texts, Lookup, TextOf, StartsWith, Deprecated, DescriptorTwiceErrors, When;
    var ds := Texts(Lookup(e.value, "x-descriptors"));
    var missing := TextOf(Lookup(e.value, "format")) == "password" && CREDENTIALS_DESCRIPTOR !in ds;
    InWhen(missing, MissingCredentials(e.key, owner), x);
    InWhen(Deprecated(ds), DeprecatedDescriptor(e.key, owner), x);
    TwiceKinds(e.key, owner, ds, x);
    DeprecatedMeaning(ds);
  }

  lemma InWhen(condition: bool, e: Error, x: Error)
    ensures x in When(condition, e) <==> condition && x == e
  {}

  lemma DeprecatedMeaning(ds: seq<string>)
    ensures Deprecated(ds) <==> exists i :: 0 <= i < |ds| && StartsWith(ds[i], "urn:alm:descriptor:com.tectonic.ui")
  {
    hide StartsWith;
  }

  lemma DescriptorErrorsKinds(owner: string, properties: seq<Entry>, x: Error)
    ensures x in AllDescriptorErrors(owner, properties) <==> OwedForSomeDescriptors(owner, properties, x)
  {
    EachMember(properties, e => PropertyDescriptorErrors(owner, e), |properties|, x);
    forall i | 0 <= i < |properties|
      ensures x in PropertyDescriptorErrors(owner, properties[i]) <==> OwedForDescriptors(owner, properties[i], x)
    {
      OneDescriptorErrorKinds(owner, properties[i], x);
      hide PropertyDescriptorErrors, OwedForDescriptors;
    }
  }

  lemma ListedErrors(names: set<string>, others: set<string>, owner: string, x: Error)
    ensures x in UndeclaredErrors(owner, names, others) <==>
            x.Undeclared? && x.name == owner && x.parameter in names && x.parameter !in others
    ensures x in UnusedErrors(owner, others, names) <==>
            x.Unused? && x.name == owner && x.parameter in names && x.parameter !in others
  {
    var l := Sorted(names);
    EachMember(l, p => When(p !in others, Undeclared(p, owner)), |l|, x);
    EachMember(l, p => When(p !in others, Unused(p, owner)), |l|, x);
    SortedLists(names);
    hide Sorted, Ascending, NoRepeats;
  }

  lemma DeclaredMeaning(k: KameletInfo, name: string)
    ensures DeclaredName(k, name) <==> name in Declared(k)
  {
    BeanNamesMeaning(Beans(k), name);
    hide BeanNames, Beans, NamesBean, Properties;
  }

  lemma UseErrorKinds(k: KameletInfo, x: Error)
    ensures x in UsedParamErrors(k) <==> OwedForUse(k, x)
  {
    hide Mentions, ParamNames, Declared, DeclaredName, UndeclaredErrors, UnusedErrors, Template;
    var used, declared := ParamNames(Template(k)), Declared(k);
    ListedErrors(used, declared, k.name, x);
    ListedErrors(declared, used, k.name, x);
    if x.Undeclared? || x.Unused? {
      MentionsMeaning(Template(k), x.parameter);
      DeclaredMeaning(k, x.parameter);
    }
  }

  lemma EndpointErrorKinds(k: KameletInfo, x: Error)
    ensures x in TemplateErrors(k) <==> OwedForEndpoints(k, x)
  {
    hide Contains, Holds, ToString, Label, Template;
    EndpointsShown(Template(k));
  }

  lemma EndpointsShown(n: Node)
    ensures Contains(ToString(n), "kamelet:sink") <==> Holds(n, "kamelet:sink")
    ensures Contains(ToString(n), "kamelet:source") <==> Holds(n, "kamelet:source")
  {
    hide Contains, Holds, ToString;
    ShownExactly(n, "kamelet:sink");
    ShownExactly(n, "kamelet:source");
  }

  lemma DependencyErrorsKinds(k: KameletInfo, x: Error)
    ensures x in DependencyErrors(k) <==> OwedForDependencies(k, x)
  {
    var ds := Dependencies(k);
    EachMember(ds, d => When(!GoodDependency(d), BadDependency(k.name, d)), |ds|, x);
    forall d
      ensures GoodDependency(d) <==> GoodPrefix(d)
    {
    }
    hide Dependencies, GoodDependency, GoodPrefix;
  }

  // ----- the catalog

  ghost predicate OwedForDuplicate(ks: seq<KameletInfo>, j: nat, x: Error)
    requires j < |ks|
  {
    var k := ks[j];
    if !Definition(k).Map? then x == NoDefinition(k.name)
    else
      match x
      case DuplicateTitle(name, title) =>
        && name == k.name && title == Title(k)
        && exists i :: 0 <= i < j && Definition(ks[i]).Map? && Title(ks[i]) == title
      case DuplicateDescription(name, description) =>
        && name == k.name && description == Description(k)
        && exists i :: 0 <= i < j && Definition(ks[i]).Map? && Description(ks[i]) == description
      case _ => false
  }

  lemma DuplicateKindsAt(ks: seq<KameletInfo>, j: nat, x: Error)
    requires j < |ks|
    ensures x in DuplicateErrorsOf(ks, j) <==> OwedForDuplicate(ks, j, x)
  {
    hide Definition, Title, Description;
  }

  lemma {:induction false} DuplicateKinds(ks: seq<KameletInfo>, n: nat, x: Error)
    requires n <= |ks|
    ensures x in DuplicateErrors(ks, n) <==> exists j :: 0 <= j < n && OwedForDuplicate(ks, j, x)
  {
    hide DuplicateErrorsOf, OwedForDuplicate;
    if n > 0 {
      DuplicateKinds(ks, n - 1, x);
      DuplicateKindsAt(ks, n - 1, x);
    }
  }

  ghost predicate OwedForVersions(ks: seq<KameletInfo>, x: Error) {
    x.InconsistentVersions? && !OneVersion(ks) && CountsVersions(x.counts, ks)
  }

  /** Each version is counted with the number of Kamelets that carry it. */
  ghost predicate CountsVersions(counts: map<string, nat>, ks: seq<KameletInfo>) {
    && (forall v :: v in counts <==>
          exists i :: 0 <= i < |ks| && Annotation(ks[i], "camel.apache.org/catalog.version") == v)
    && (forall v :: v in counts ==> counts[v] == CarriersOf(ks, v))
  }

  lemma CountsAreVersionCounts(ks: seq<KameletInfo>, counts: map<string, nat>)
    ensures CountsVersions(counts, ks) <==> counts == VersionCounts(ks)
  {
    var m := VersionCounts(ks);
    forall v
      ensures v in m <==> exists i :: 0 <= i < |ks| && Annotation(ks[i], "camel.apache.org/catalog.version") == v
      ensures v in m ==> m[v] == CarriersOf(ks, v)
    {
      VersionCountsMeaning(ks, v);
      hide Annotation, CarriersOf;
    }
    hide VersionCounts, Annotation, CarriersOf;
    if CountsVersions(counts, ks) {
      assert counts == m;
    }
  }

  lemma VersionErrorKinds(ks: seq<KameletInfo>, x: Error)
    ensures x in VersionErrors(ks) <==> OwedForVersions(ks, x)
  {
    VersionErrorsMeaning(ks);
    if x.InconsistentVersions? {
      CountsAreVersionCounts(ks, x.counts);
    }
    hide VersionCounts, OneVersion, CountsVersions;
  }

  /** The later phase reports exactly what is owed for the conventions of some Kamelet, for its
      repeating the title or the description of an earlier one, or for the versions. */
  lemma ConventionErrorKinds(ks: seq<KameletInfo>, x: Error)
    ensures x in ConventionErrors(ks) <==>
            || (exists i :: 0 <= i < |ks| && OwedForConventions(ks[i], x))
            || (exists j :: 0 <= j < |ks| && OwedForDuplicate(ks, j, x))
            || OwedForVersions(ks, x)
  {
    InPhase(ks, x);
    DuplicateKinds(ks, |ks|, x);
    VersionErrorKinds(ks, x);
    forall i | 0 <= i < |ks|
      ensures OwedForConventions(ks[i], x) <==> InConventions(ks[i], x)
    {
      ConventionKindsOf(ks[i], x);
    }
    hide InConventions, ConventionErrors, DuplicateErrors, VersionErrors, OwedForConventions, OwedForDuplicate,
      OwedForVersions;
  }

  lemma InPhase(ks: seq<KameletInfo>, x: Error)
    ensures x in ConventionErrors(ks) <==>
            || (exists i :: 0 <= i < |ks| && InConventions(ks[i], x))
            || x in DuplicateErrors(ks, |ks|) || x in VersionErrors(ks)
  {
    InEach(ks, AnnotationErrors, x);
    InEach(ks, DescriptorErrors, x);
    InEach(ks, UsedParamErrors, x);
    InEach(ks, TemplateErrors, x);
    InEach(ks, DependencyErrors, x);
    InSomeConventions(ks, x);
    hide AnnotationErrors, DescriptorErrors, UsedParamErrors, TemplateErrors, DependencyErrors, DuplicateErrors,
      VersionErrors, Each, InSome, InConventions;
  }

  lemma InSomeConventions(ks: seq<KameletInfo>, x: Error)
    ensures (exists i :: 0 <= i < |ks| && InConventions(ks[i], x)) <==>
            || InSome(ks, AnnotationErrors, x) || InSome(ks, DescriptorErrors, x)
            || InSome(ks, UsedParamErrors, x) || InSome(ks, TemplateErrors, x) || InSome(ks, DependencyErrors, x)
  {
    hide AnnotationErrors, DescriptorErrors, UsedParamErrors, TemplateErrors, DependencyErrors;
  }

  ghost predicate InConventions(k: KameletInfo, x: Error) {
    || x in AnnotationErrors(k) || x in DescriptorErrors(k) || x in UsedParamErrors(k)
    || x in TemplateErrors(k) || x in DependencyErrors(k)
  }

  lemma ConventionKindsOf(k: KameletInfo, x: Error)
    ensures OwedForConventions(k, x) <==> InConventions(k, x)
  {
    AnnotationErrorKinds(k, x);
    DescriptorErrorsKinds(k.name, Properties(k), x);
    UseErrorKinds(k, x);
    EndpointErrorKinds(k, x);
    DependencyErrorsKinds(k, x);
    hide AnnotationErrors, AllDescriptorErrors, UsedParamErrors, TemplateErrors, DependencyErrors,
      OwedForAnnotations, OwedForSomeDescriptors, OwedForUse, OwedForEndpoints, OwedForDependencies, Definition;
  }
}
