/** What the catalog conventions demand, said twice: as the set of errors each check owes its
    reader, and as one positive description of a well-formed catalog. */
module CatalogRules {
  import opened Text
  import opened KameletDocuments
  import opened Placeholders
  import opened StringOrder

  const FILE_SUFFIX := ".kamelet.yaml"
  const TERMINATORS: set<char> := {'\n', '\r', '\U{0085}', '\U{2028}', '\U{2029}'}
  const EXPECTED_PROVIDER := "Apache Software Foundation"
  const CREDENTIALS_DESCRIPTOR := "urn:camel:group:credentials"
  const DEPRECATED_DESCRIPTOR_PREFIX := "urn:alm:descriptor:com.tectonic.ui"
  const TYPES: set<string> := {"source", "sink", "action"}

  const STOP_WORDS: set<string> := {
    "a", "an", "and", "are", "as", "at", "be", "but", "by", "for", "if", "in",
    "into", "is", "it", "no", "not", "of", "on", "or", "such", "that", "the",
    "their", "then", "there", "these", "they", "this", "to", "was", "will", "with"}

  const EXTRA_EXEMPT: set<string> := {
    "name", "between", "from", "now", "about", "after", "before", "down", "during",
    "only", "over", "same", "some", "than", "too", "under", "up", "very", "when",
    "where", "which", "while", "who", "why", "you", "your"}

  const USED_PARAMS_EXEMPT: set<string> := {
    "azure-storage-blob-source", "aws-s3-event-based-source", "ceph-event-based-source",
    "aws-sqs-source", "set-kafka-key-action", "azure-storage-blob-event-based-source",
    "google-storage-event-based-source", "elasticsearch-search-source", "opensearch-search-source",
    "kafka-azure-schema-registry-source", "kafka-azure-schema-registry-sink",
    "kafka-batch-azure-schema-registry-source", "cassandra-sink", "data-type-action"}

  /** Upper and lower case are those of the platform; any two functions will do here. */
  datatype Casing = Casing(upper: string -> string, lower: string -> string)

  datatype Error =
    | NameMismatch(path: string, name: string)
    | WrongSuffix(name: string, suffix: string) | InvalidType(name: string, tp: string)
    | NoDefinition(name: string) | NoTemplate(name: string)
    | RequiredTwice(property: string, name: string) | RequiredUndefined(property: string, name: string)
    | NoTitle(name: string) | TitleSuffix(name: string, title: string, suffix: string)
    | NoDescription(name: string) | NotObject(name: string)
    | PropertyNoType(key: string, name: string) | PropertyNoTitle(key: string, name: string)
    | PropertyNoDescription(key: string, name: string)
    | LowerCaseWord(key: string, name: string, word: string)
    | TitleArticle(key: string, name: string, article: string)
    | NoIcon(name: string) | NoVersion(name: string) | WrongProvider(name: string, provider: string)
    | MissingCredentials(key: string, name: string) | DeprecatedDescriptor(key: string, name: string)
    | DescriptorTwice(key: string, name: string, descriptor: string)
    | DuplicateTitle(name: string, title: string) | DuplicateDescription(name: string, description: string)
    | Undeclared(parameter: string, name: string) | Unused(parameter: string, name: string)
    | MustRouteToSink(name: string) | MustConsumeFromSource(name: string)
    | BadDependency(name: string, dependency: string)
    | InconsistentVersions(counts: map<string, nat>)

  function When(condition: bool, e: Error): seq<Error> {
    if condition then [e] else []
  }

  /** The errors of one rule over the first n items, in their order. */
  function Each<T>(items: seq<T>, rule: T -> seq<Error>, n: nat): seq<Error>
    requires n <= |items|
  {
    if n == 0 then [] else Each(items, rule, n - 1) + rule(items[n - 1])
  }

  /** An error for each of the first n items that repeats an earlier one. */
  function Repeats(items: seq<string>, e: string -> Error, n: nat): seq<Error>
    requires n <= |items|
  {
    if n == 0 then []
    else Repeats(items, e, n - 1) + When(items[n - 1] in items[..n - 1], e(items[n - 1]))
  }

  // ----- the structural phase, Kamelet by Kamelet

  /** The length of a line terminator at the end, in front of which an anchored pattern still
      matches. */
  function TerminatorLength(s: string): (n: nat)
    ensures n <= |s|
  {
    if EndsWith(s, "\r\n") then 2 else if s != "" && s[|s| - 1] in TERMINATORS then 1 else 0
  }

  /** The file name without its suffix; a line terminator after the suffix stays. */
  function Stem(fileName: string): string {
    var n := |fileName| - TerminatorLength(fileName);
    if EndsWith(fileName[..n], FILE_SUFFIX) then fileName[..n - |FILE_SUFFIX|] + fileName[n..] else fileName
  }

  function FileNameErrors(k: KameletInfo): seq<Error> {
    When(k.name != Stem(k.fileName), NameMismatch(k.path, k.name))
  }

  function TypeErrors(k: KameletInfo): seq<Error> {
    var tp := Label(k, TYPE_LABEL);
    if tp in TYPES then When(!EndsWith(k.name, "-" + tp), WrongSuffix(k.name, "-" + tp))
    else [InvalidType(k.name, tp)]
  }

  predicate AlphaNumeric(c: char) {
    'A' <= c <= 'Z' || 'a' <= c <= 'z' || '0' <= c <= '9'
  }

  function StripPunctuation(w: string): string {
    if w == "" then "" else (if AlphaNumeric(w[0]) then [w[0]] else "") + StripPunctuation(w[1..])
  }

  /** A word is exempt from capitalization as a stop word, or if stripping changes it. */
  predicate Exempt(w: string, c: Casing) {
    var lower := c.lower(w);
    lower in STOP_WORDS || lower in EXTRA_EXEMPT || lower != StripPunctuation(lower)
  }

  predicate Capitalized(w: string, c: Casing)
    requires w != ""
  {
    c.upper(w[..1]) == w[..1]
  }

  function RequiredTwiceErrors(name: string, required: seq<string>): seq<Error> {
    Repeats(required, p => RequiredTwice(p, name), |required|)
  }

  function RequiredUndefinedErrors(name: string, required: seq<string>, keys: set<string>): seq<Error> {
    Each(required, p => When(p !in keys, RequiredUndefined(p, name)), |required|)
  }

  function ExpectedTitleSuffix(tp: string, c: Casing): string
    requires tp != ""
  {
    c.upper(tp[..1]) + tp[1..]
  }

  function TitleErrors(k: KameletInfo, c: Casing): seq<Error> {
    var title, tp := Title(k), Label(k, TYPE_LABEL);
    if title == "" then [NoTitle(k.name)]
    else if |tp| <= 1 then []
    else
      var suffix := ExpectedTitleSuffix(tp, c);
      When(!EndsWith(title, suffix), TitleSuffix(k.name, title, suffix))
  }

  function WordError(key: string, name: string, w: string, c: Casing): seq<Error> {
    if w == "" || Exempt(w, c) then [] else When(!Capitalized(w, c), LowerCaseWord(key, name, w))
  }

  function WordErrors(key: string, name: string, title: string, c: Casing): seq<Error> {
    var words := Split(title, ' ');
    Each(words, w => WordError(key, name, w, c), |words|)
  }

  function PropertyTitleErrors(key: string, name: string, title: string, c: Casing): seq<Error> {
    (if title == "" then [PropertyNoTitle(key, name)] else WordErrors(key, name, title, c))
    + When(StartsWith(title, "The "), TitleArticle(key, name, "The "))
    + When(StartsWith(title, "A "), TitleArticle(key, name, "A "))
    + When(StartsWith(title, "An "), TitleArticle(key, name, "An "))
  }

  function PropertyErrors(name: string, property: Entry, c: Casing): seq<Error> {
    var key, p := property.key, property.value;
    if !p.Map? then []
    else
      When(TextOf(Lookup(p, "type")) == "", PropertyNoType(key, name))
      + PropertyTitleErrors(key, name, TextOf(Lookup(p, "title")), c)
      + When(TextOf(Lookup(p, "description")) == "", PropertyNoDescription(key, name))
  }

  function AllPropertyErrors(name: string, properties: seq<Entry>, c: Casing): seq<Error> {
    Each(properties, e => PropertyErrors(name, e, c), |properties|)
  }

  function ParameterErrors(k: KameletInfo, c: Casing): seq<Error> {
    if !Definition(k).Map? then [NoDefinition(k.name)]
    else if !Template(k).Map? then [NoTemplate(k.name)]
    else
      RequiredTwiceErrors(k.name, Required(k))
      + TitleErrors(k, c)
      + When(Description(k) == "", NoDescription(k.name))
      + When(ToString(Lookup(Definition(k), "type")) != "object", NotObject(k.name))
      + AllPropertyErrors(k.name, Properties(k), c)
      + RequiredUndefinedErrors(k.name, Required(k), PropertyKeys(k))
  }

  // ----- the later phase, Kamelet by Kamelet

  function AnnotationErrors(k: KameletInfo): seq<Error> {
    When(Annotation(k, ICON_ANNOTATION) == "", NoIcon(k.name))
    + When(Annotation(k, VERSION_ANNOTATION) == "", NoVersion(k.name))
    + When(Annotation(k, PROVIDER_ANNOTATION) != EXPECTED_PROVIDER,
           WrongProvider(k.name, Annotation(k, PROVIDER_ANNOTATION)))
  }

  function DescriptorTwiceErrors(key: string, name: string, descriptors: seq<string>): seq<Error> {
    Repeats(descriptors, d => DescriptorTwice(key, name, d), |descriptors|)
  }

  predicate Deprecated(descriptors: seq<string>) {
    exists d :: d in descriptors && StartsWith(d, DEPRECATED_DESCRIPTOR_PREFIX)
  }

  function PropertyDescriptorErrors(name: string, property: Entry): seq<Error> {
    var key, p := property.key, property.value;
    if !p.Map? then []
    else
      var descriptors := Texts(Lookup(p, "x-descriptors"));
      When(TextOf(Lookup(p, "format")) == "password" && CREDENTIALS_DESCRIPTOR !in descriptors,
           MissingCredentials(key, name))
      + When(Deprecated(descriptors), DeprecatedDescriptor(key, name))
      + DescriptorTwiceErrors(key, name, descriptors)
  }

  function AllDescriptorErrors(name: string, properties: seq<Entry>): seq<Error> {
    Each(properties, e => PropertyDescriptorErrors(name, e), |properties|)
  }

  function DescriptorErrors(k: KameletInfo): seq<Error> {
    if !Definition(k).Map? then [NoDefinition(k.name)] else AllDescriptorErrors(k.name, Properties(k))
  }

  /** The placeholder names a node mentions anywhere. */
  function ParamNames(n: Node): set<string>
    decreases n
  {
    match n
    case Str(s) => set m | m in Scan(s) :: m.name
    case List(items) => ParamNamesOfItems(items)
    case Map(entries) => ParamNamesOfEntries(entries)
    case _ => {}
  }

  function ParamNamesOfItems(items: seq<Node>): set<string>
    decreases items
  {
    if items == [] then {} else ParamNames(items[0]) + ParamNamesOfItems(items[1..])
  }

  function ParamNamesOfEntries(entries: seq<Entry>): set<string>
    decreases entries
  {
    if entries == [] then {} else ParamNames(entries[0].value) + ParamNamesOfEntries(entries[1..])
  }

  function Beans(k: KameletInfo): seq<Node> {
    var beans := Lookup(Template(k), "beans");
    if beans.List? then beans.items else []
  }

  predicate NamesBean(b: Node, name: string) {
    b.Map? && !Lookup(b, "name").Null? && ToString(Lookup(b, "name")) == name
  }

  function BeanNames(beans: seq<Node>): set<string> {
    if beans == [] then {}
    else
      var b := beans[|beans| - 1];
      BeanNames(beans[..|beans| - 1])
      + if b.Map? && !Lookup(b, "name").Null? then {ToString(Lookup(b, "name"))} else {}
  }

  function Declared(k: KameletInfo): set<string> {
    PropertyKeys(k) + BeanNames(Beans(k))
  }

  ghost function UndeclaredErrors(name: string, used: set<string>, declared: set<string>): seq<Error> {
    var names := Sorted(used);
    Each(names, p => When(p !in declared, Undeclared(p, name)), |names|)
  }

  ghost function UnusedErrors(name: string, used: set<string>, declared: set<string>): seq<Error> {
    var names := Sorted(declared);
    Each(names, p => When(p !in used, Unused(p, name)), |names|)
  }

  ghost function UsedParamErrors(k: KameletInfo): seq<Error> {
    if k.name in USED_PARAMS_EXEMPT then []
    else
      var used, declared := ParamNames(Template(k)), Declared(k);
      UndeclaredErrors(k.name, used, declared) + UnusedErrors(k.name, used, declared)
  }

  function TemplateErrors(k: KameletInfo): seq<Error> {
    if !Template(k).Map? then []
    else
      var text, tp := ToString(Template(k)), Label(k, TYPE_LABEL);
      if tp == "source" && !Contains(text, "kamelet:sink") then [MustRouteToSink(k.name)]
      else if tp == "sink" && !Contains(text, "kamelet:source") then [MustConsumeFromSource(k.name)]
      else []
  }

  predicate GoodDependency(dep: string) {
    StartsWith(dep, "camel:") || StartsWith(dep, "mvn:") || StartsWith(dep, "github:apache/")
  }

  function DependencyErrors(k: KameletInfo): seq<Error> {
    var dependencies := Dependencies(k);
    Each(dependencies, d => When(!GoodDependency(d), BadDependency(k.name, d)), |dependencies|)
  }

  // ----- the later phase, across the catalog

  predicate Earlier(ks: seq<KameletInfo>, j: nat, f: KameletInfo -> string)
    requires j < |ks|
  {
    exists i :: 0 <= i < j && Definition(ks[i]).Map? && f(ks[i]) == f(ks[j])
  }

  function DuplicateErrorsOf(ks: seq<KameletInfo>, j: nat): seq<Error>
    requires j < |ks|
  {
    var k := ks[j];
    if !Definition(k).Map? then [NoDefinition(k.name)]
    else
      When(Earlier(ks, j, Title), DuplicateTitle(k.name, Title(k)))
      + When(Earlier(ks, j, Description), DuplicateDescription(k.name, Description(k)))
  }

  function DuplicateErrors(ks: seq<KameletInfo>, n: nat): seq<Error>
    requires n <= |ks|
  {
    if n == 0 then [] else DuplicateErrors(ks, n - 1) + DuplicateErrorsOf(ks, n - 1)
  }

  function VersionOf(k: KameletInfo): string { Annotation(k, VERSION_ANNOTATION) }

  /** How many Kamelets carry each version. */
  function VersionCounts(ks: seq<KameletInfo>): map<string, nat> {
    if ks == [] then map[]
    else
      var counts, v := VersionCounts(ks[..|ks| - 1]), VersionOf(ks[|ks| - 1]);
      counts[v := if v in counts then counts[v] + 1 else 1]
  }

  function VersionErrors(ks: seq<KameletInfo>): seq<Error> {
    When(|VersionCounts(ks)| > 1, InconsistentVersions(VersionCounts(ks)))
  }

  // ----- the phases

  function StructuralErrors(ks: seq<KameletInfo>, c: Casing): seq<Error> {
    Each(ks, FileNameErrors, |ks|) + Each(ks, TypeErrors, |ks|) + Each(ks, k => ParameterErrors(k, c), |ks|)
  }

  ghost function ConventionErrors(ks: seq<KameletInfo>): seq<Error> {
    Each(ks, AnnotationErrors, |ks|) + Each(ks, DescriptorErrors, |ks|) + DuplicateErrors(ks, |ks|)
    + Each(ks, UsedParamErrors, |ks|) + Each(ks, TemplateErrors, |ks|) + Each(ks, DependencyErrors, |ks|)
    + VersionErrors(ks)
  }
}
