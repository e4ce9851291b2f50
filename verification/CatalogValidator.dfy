/** The validator: checks that walk the catalog and append to a shared list of errors. Each
    one is shown to report exactly the errors its rule owes, and nothing else. */
module CatalogValidator {
  import opened Text
  import opened KameletDocuments
  import opened Placeholders
  import opened StringOrder
  import opened CatalogRules
  import opened CatalogTheorems

  function SetOf<T>(s: seq<T>): set<T> {
    set x | x in s
  }

  /** after is before, followed by these errors. */
  ghost predicate Reports(before: seq<Error>, after: seq<Error>, errors: seq<Error>) {
    after == before + errors
  }

  lemma ReportsNothing(before: seq<Error>)
    ensures Reports(before, before, [])
  {}

  lemma ReportsThen(a: seq<Error>, b: seq<Error>, c: seq<Error>, e: seq<Error>, f: seq<Error>)
    requires Reports(a, b, e) && Reports(b, c, f)
    ensures Reports(a, c, e + f)
  {}

  class ErrorList {
    var errors: seq<Error>

    constructor ()
      ensures errors == []
    {
      errors := [];
    }

    method AddIf(condition: bool, e: Error)
      modifies this
      ensures Reports(old(errors), errors, When(condition, e))
    {
      if condition {
        errors := errors + [e];
      }
    }
  }

  // ----- structural checks

  method VerifyFileNames(ks: seq<KameletInfo>, log: ErrorList)
    modifies log
    ensures Reports(old(log.errors), log.errors, Each(ks, FileNameErrors, |ks|))
  {
    hide Reports;
    ReportsNothing(log.errors);
    for n := 0 to |ks|
      invariant Reports(old(log.errors), log.errors, Each(ks, FileNameErrors, n))
    {
      ghost var mid := log.errors;
      var k := ks[n];
      var expected := Stem(k.fileName);
      log.AddIf(k.name != expected, NameMismatch(k.path, k.name));
      ReportsThen(old(log.errors), mid, log.errors, Each(ks, FileNameErrors, n), FileNameErrors(k));
    }
  }

  method VerifyKameletType(ks: seq<KameletInfo>, log: ErrorList)
    modifies log
    ensures Reports(old(log.errors), log.errors, Each(ks, TypeErrors, |ks|))
  {
    hide Reports;
    ReportsNothing(log.errors);
    for n := 0 to |ks|
      invariant Reports(old(log.errors), log.errors, Each(ks, TypeErrors, n))
    {
      ghost var mid := log.errors;
      var k := ks[n];
      var tp := Label(k, TYPE_LABEL);
      if tp == "source" || tp == "sink" || tp == "action" {
        var suffix := "-" + tp;
        log.AddIf(!EndsWith(k.name, suffix), WrongSuffix(k.name, suffix));
      } else {
        log.AddIf(true, InvalidType(k.name, tp));
      }
      ReportsThen(old(log.errors), mid, log.errors, Each(ks, TypeErrors, n), TypeErrors(k));
    }
  }

  /** The repeated entries of a list, reported at each repetition. */
  method VerifyRequiredOnce(name: string, required: seq<string>, log: ErrorList)
    modifies log
    ensures Reports(old(log.errors), log.errors, RequiredTwiceErrors(name, required))
  {
    hide Reports;
    ghost var error := p => RequiredTwice(p, name);
    var seen: set<string> := {};
    ReportsNothing(log.errors);
    for i := 0 to |required|
      invariant seen == SetOf(required[..i])
      invariant Reports(old(log.errors), log.errors, Repeats(required, error, i))
    {
      var p := required[i];
      ghost var mid := log.errors;
      log.AddIf(p in seen, RequiredTwice(p, name));
      ReportsThen(old(log.errors), mid, log.errors, Repeats(required, error, i), When(p in seen, error(p)));
      assert required[..i + 1] == required[..i] + [p];
      seen := seen + {p};
    }
  }

  method VerifyRequiredDefined(name: string, required: seq<string>, keys: set<string>, log: ErrorList)
    modifies log
    ensures Reports(old(log.errors), log.errors, RequiredUndefinedErrors(name, required, keys))
  {
    hide Reports;
    ghost var rule := p => When(p !in keys, RequiredUndefined(p, name));
    ReportsNothing(log.errors);
    for i := 0 to |required|
      invariant Reports(old(log.errors), log.errors, Each(required, rule, i))
    {
      var r := required[i];
      ghost var mid := log.errors;
      log.AddIf(r !in keys, RequiredUndefined(r, name));
      ReportsThen(old(log.errors), mid, log.errors, Each(required, rule, i), rule(r));
    }
  }

  method VerifyTitleWords(key: string, name: string, title: string, c: Casing, log: ErrorList)
    modifies log
    ensures Reports(old(log.errors), log.errors, WordErrors(key, name, title, c))
  {
    hide Reports, Exempt, Capitalized, Split;
    ghost var rule := w => WordError(key, name, w, c);
    var words := Split(title, ' ');
    ReportsNothing(log.errors);
    for i := 0 to |words|
      invariant Reports(old(log.errors), log.errors, Each(words, rule, i))
    {
      var w := words[i];
      ghost var mid := log.errors;
      if w == "" || Exempt(w, c) {
        ReportsNothing(mid);
        ReportsThen(old(log.errors), mid, log.errors, Each(words, rule, i), []);
        continue;
      }
      log.AddIf(!Capitalized(w, c), LowerCaseWord(key, name, w));
      ReportsThen(old(log.errors), mid, log.errors, Each(words, rule, i), rule(w));
    }
  }

  method VerifyPropertyTitle(key: string, name: string, title: string, c: Casing, log: ErrorList)
    modifies log
    ensures Reports(old(log.errors), log.errors, PropertyTitleErrors(key, name, title, c))
  {
    hide Reports, WordErrors, StartsWith;
    ghost var start := log.errors;
    if title == "" {
      log.AddIf(true, PropertyNoTitle(key, name));
    } else {
      VerifyTitleWords(key, name, title, c, log);
    }
    ghost var mid, sofar :=
      log.errors, if title == "" then [PropertyNoTitle(key, name)] else WordErrors(key, name, title, c);
    log.AddIf(StartsWith(title, "The "), TitleArticle(key, name, "The "));
    sofar := Extend(start, mid, log, sofar, When(StartsWith(title, "The "), TitleArticle(key, name, "The ")));
    mid := log.errors;
    log.AddIf(StartsWith(title, "A "), TitleArticle(key, name, "A "));
    sofar := Extend(start, mid, log, sofar, When(StartsWith(title, "A "), TitleArticle(key, name, "A ")));
    mid := log.errors;
    log.AddIf(StartsWith(title, "An "), TitleArticle(key, name, "An "));
    sofar := Extend(start, mid, log, sofar, When(StartsWith(title, "An "), TitleArticle(key, name, "An ")));
  }

  method VerifyProperty(name: string, property: Entry, c: Casing, log: ErrorList)
    modifies log
    ensures Reports(old(log.errors), log.errors, PropertyErrors(name, property, c))
  {
    hide Reports, PropertyTitleErrors, Lookup, TextOf;
    var key, p := property.key, property.value;
    ReportsNothing(log.errors);
    if !p.Map? {
      return;
    }
    var tp, title := TextOf(Lookup(p, "type")), TextOf(Lookup(p, "title"));
    var description := TextOf(Lookup(p, "description"));
    ghost var start := log.errors;
    log.AddIf(tp == "", PropertyNoType(key, name));
    ghost var mid, sofar := log.errors, When(tp == "", PropertyNoType(key, name));
    VerifyPropertyTitle(key, name, title, c, log);
    sofar := Extend(start, mid, log, sofar, PropertyTitleErrors(key, name, title, c));
    mid := log.errors;
    log.AddIf(description == "", PropertyNoDescription(key, name));
    sofar := Extend(start, mid, log, sofar, When(description == "", PropertyNoDescription(key, name)));
  }

  /** Adds what was reported since mid to what was reported since start. */
  ghost method Extend(start: seq<Error>, mid: seq<Error>, log: ErrorList, sofar: seq<Error>, add: seq<Error>)
    returns (all: seq<Error>)
    requires Reports(start, mid, sofar) && Reports(mid, log.errors, add)
    ensures all == sofar + add && Reports(start, log.errors, all)
  {
    ReportsThen(start, mid, log.errors, sofar, add);
    all := sofar + add;
  }

  method VerifyProperties(name: string, properties: seq<Entry>, c: Casing, log: ErrorList)
    modifies log
    ensures Reports(old(log.errors), log.errors, AllPropertyErrors(name, properties, c))
  {
    hide Reports, PropertyErrors;
    ghost var rule := e => PropertyErrors(name, e, c);
    ReportsNothing(log.errors);
    for i := 0 to |properties|
      invariant Reports(old(log.errors), log.errors, Each(properties, rule, i))
    {
      ghost var mid := log.errors;
      VerifyProperty(name, properties[i], c, log);
      ReportsThen(old(log.errors), mid, log.errors, Each(properties, rule, i), rule(properties[i]));
    }
  }

  method VerifyTitle(k: KameletInfo, c: Casing, log: ErrorList)
    modifies log
    ensures Reports(old(log.errors), log.errors, TitleErrors(k, c))
  {
    hide Reports;
    ReportsNothing(log.errors);
    var title := Title(k);
    if title == "" {
      log.AddIf(true, NoTitle(k.name));
    } else {
      var tp := Label(k, TYPE_LABEL);
      if |tp| > 1 {
        var suffix := ExpectedTitleSuffix(tp, c);
        log.AddIf(!EndsWith(title, suffix), TitleSuffix(k.name, title, suffix));
      }
    }
  }

  method VerifyParametersOf(k: KameletInfo, c: Casing, log: ErrorList)
    modifies log
    ensures Reports(old(log.errors), log.errors, ParameterErrors(k, c))
  {
    hide Reports, RequiredTwiceErrors, RequiredUndefinedErrors, TitleErrors, AllPropertyErrors;
    ReportsNothing(log.errors);
    if !Definition(k).Map? {
      log.AddIf(true, NoDefinition(k.name));
      return;
    }
    if !Template(k).Map? {
      log.AddIf(true, NoTemplate(k.name));
      return;
    }
    ghost var start := log.errors;
    VerifyRequiredOnce(k.name, Required(k), log);
    ghost var mid, sofar := log.errors, RequiredTwiceErrors(k.name, Required(k));
    VerifyTitle(k, c, log);
    sofar := Extend(start, mid, log, sofar, TitleErrors(k, c));
    mid := log.errors;
    log.AddIf(Description(k) == "", NoDescription(k.name));
    sofar := Extend(start, mid, log, sofar, When(Description(k) == "", NoDescription(k.name)));
    mid := log.errors;
    var notObject := ToString(Lookup(Definition(k), "type")) != "object";
    log.AddIf(notObject, NotObject(k.name));
    sofar := Extend(start, mid, log, sofar, When(notObject, NotObject(k.name)));
    mid := log.errors;
    VerifyProperties(k.name, Properties(k), c, log);
    sofar := Extend(start, mid, log, sofar, AllPropertyErrors(k.name, Properties(k), c));
    mid := log.errors;
    VerifyRequiredDefined(k.name, Required(k), PropertyKeys(k), log);
    sofar := Extend(start, mid, log, sofar, RequiredUndefinedErrors(k.name, Required(k), PropertyKeys(k)));
    assert sofar == ParameterErrors(k, c);
  }

  method VerifyParameters(ks: seq<KameletInfo>, c: Casing, log: ErrorList)
    modifies log
    ensures Reports(old(log.errors), log.errors, Each(ks, k => ParameterErrors(k, c), |ks|))
  {
    hide Reports, ParameterErrors;
    ghost var rule := k => ParameterErrors(k, c);
    ReportsNothing(log.errors);
    for n := 0 to |ks|
      invariant Reports(old(log.errors), log.errors, Each(ks, rule, n))
    {
      ghost var mid := log.errors;
      VerifyParametersOf(ks[n], c, log);
      ReportsThen(old(log.errors), mid, log.errors, Each(ks, rule, n), rule(ks[n]));
    }
  }

  // ----- conventions

  method VerifyAnnotationsOf(k: KameletInfo, log: ErrorList)
    modifies log
    ensures Reports(old(log.errors), log.errors, AnnotationErrors(k))
  {
    hide Reports, Annotation;
    ghost var start := log.errors;
    var icon, version := Annotation(k, ICON_ANNOTATION), Annotation(k, VERSION_ANNOTATION);
    var provider := Annotation(k, PROVIDER_ANNOTATION);
    log.AddIf(icon == "", NoIcon(k.name));
    ghost var mid, sofar := log.errors, When(icon == "", NoIcon(k.name));
    log.AddIf(version == "", NoVersion(k.name));
    sofar := Extend(start, mid, log, sofar, When(version == "", NoVersion(k.name)));
    mid := log.errors;
    log.AddIf(EXPECTED_PROVIDER != provider, WrongProvider(k.name, provider));
    sofar := Extend(start, mid, log, sofar, When(EXPECTED_PROVIDER != provider, WrongProvider(k.name, provider)));
  }

  method VerifyAnnotations(ks: seq<KameletInfo>, log: ErrorList)
    modifies log
    ensures Reports(old(log.errors), log.errors, Each(ks, AnnotationErrors, |ks|))
  {
    hide Reports, AnnotationErrors;
    ReportsNothing(log.errors);
    for n := 0 to |ks|
      invariant Reports(old(log.errors), log.errors, Each(ks, AnnotationErrors, n))
    {
      ghost var mid := log.errors;
      VerifyAnnotationsOf(ks[n], log);
      ReportsThen(old(log.errors), mid, log.errors, Each(ks, AnnotationErrors, n), AnnotationErrors(ks[n]));
    }
  }

  method VerifyDescriptorsOnce(key: string, name: string, descriptors: seq<string>, log: ErrorList)
    modifies log
    ensures Reports(old(log.errors), log.errors, DescriptorTwiceErrors(key, name, descriptors))
  {
    hide Reports;
    ghost var error := d => DescriptorTwice(key, name, d);
    var seen: set<string> := {};
    ReportsNothing(log.errors);
    for i := 0 to |descriptors|
      invariant seen == SetOf(descriptors[..i])
      invariant Reports(old(log.errors), log.errors, Repeats(descriptors, error, i))
    {
      var d := descriptors[i];
      ghost var mid := log.errors;
      log.AddIf(d in seen, DescriptorTwice(key, name, d));
      ReportsThen(old(log.errors), mid, log.errors, Repeats(descriptors, error, i), When(d in seen, error(d)));
      assert descriptors[..i + 1] == descriptors[..i] + [d];
      seen := seen + {d};
    }
  }

  method VerifyPropertyDescriptors(name: string, property: Entry, log: ErrorList)
    modifies log
    ensures Reports(old(log.errors), log.errors, PropertyDescriptorErrors(name, property))
  {
    hide Reports, DescriptorTwiceErrors, Deprecated, Lookup, Texts, TextOf;
    ReportsNothing(log.errors);
    var key, p := property.key, property.value;
    if !p.Map? {
      return;
    }
    var descriptors := Texts(Lookup(p, "x-descriptors"));
    ghost var start := log.errors;
    var missing := TextOf(Lookup(p, "format")) == "password" && CREDENTIALS_DESCRIPTOR !in descriptors;
    log.AddIf(missing, MissingCredentials(key, name));
    ghost var mid, sofar := log.errors, When(missing, MissingCredentials(key, name));
    log.AddIf(Deprecated(descriptors), DeprecatedDescriptor(key, name));
    sofar := Extend(start, mid, log, sofar, When(Deprecated(descriptors), DeprecatedDescriptor(key, name)));
    mid := log.errors;
    VerifyDescriptorsOnce(key, name, descriptors, log);
    sofar := Extend(start, mid, log, sofar, DescriptorTwiceErrors(key, name, descriptors));
  }

  method VerifyDescriptorsOf(k: KameletInfo, log: ErrorList)
    modifies log
    ensures Reports(old(log.errors), log.errors, DescriptorErrors(k))
  {
    hide Reports, PropertyDescriptorErrors;
    ReportsNothing(log.errors);
    if !Definition(k).Map? {
      log.AddIf(true, NoDefinition(k.name));
      return;
    }
    var properties := Properties(k);
    ghost var rule := e => PropertyDescriptorErrors(k.name, e);
    for i := 0 to |properties|
      invariant Reports(old(log.errors), log.errors, Each(properties, rule, i))
    {
      ghost var mid := log.errors;
      VerifyPropertyDescriptors(k.name, properties[i], log);
      ReportsThen(old(log.errors), mid, log.errors, Each(properties, rule, i), rule(properties[i]));
    }
  }

  method VerifyDescriptors(ks: seq<KameletInfo>, log: ErrorList)
    modifies log
    ensures Reports(old(log.errors), log.errors, Each(ks, DescriptorErrors, |ks|))
  {
    hide Reports, DescriptorErrors;
    ReportsNothing(log.errors);
    for n := 0 to |ks|
      invariant Reports(old(log.errors), log.errors, Each(ks, DescriptorErrors, n))
    {
      ghost var mid := log.errors;
      VerifyDescriptorsOf(ks[n], log);
      ReportsThen(old(log.errors), mid, log.errors, Each(ks, DescriptorErrors, n), DescriptorErrors(ks[n]));
    }
  }

  /** The values seen so far, of the Kamelets that have a definition. */
  ghost predicate Seen(ks: seq<KameletInfo>, n: nat, f: KameletInfo -> string, values: set<string>)
    requires n <= |ks|
  {
    forall v :: v in values <==> exists i :: 0 <= i < n && Definition(ks[i]).Map? && f(ks[i]) == v
  }

  lemma SeenMore(ks: seq<KameletInfo>, n: nat, f: KameletInfo -> string, values: set<string>)
    requires n < |ks| && Seen(ks, n, f, values)
    ensures Definition(ks[n]).Map? ==> Seen(ks, n + 1, f, values + {f(ks[n])})
    ensures !Definition(ks[n]).Map? ==> Seen(ks, n + 1, f, values)
    ensures f(ks[n]) in values <==> Earlier(ks, n, f)
  {
    hide Definition;
  }

  method VerifyDuplicates(ks: seq<KameletInfo>, log: ErrorList)
    modifies log
    ensures Reports(old(log.errors), log.errors, DuplicateErrors(ks, |ks|))
  {
    hide Reports, Seen, Earlier, Title, Description, Definition;
    var titles: set<string>, descriptions: set<string> := {}, {};
    ReportsNothing(log.errors);
    NothingSeen(ks, Title);
    NothingSeen(ks, Description);
    for n := 0 to |ks|
      invariant Reports(old(log.errors), log.errors, DuplicateErrors(ks, n))
      invariant Seen(ks, n, Title, titles) && Seen(ks, n, Description, descriptions)
    {
      var k := ks[n];
      SeenMore(ks, n, Title, titles);
      SeenMore(ks, n, Description, descriptions);
      ghost var start := log.errors;
      if !Definition(k).Map? {
        log.AddIf(true, NoDefinition(k.name));
      } else {
        var title, description := Title(k), Description(k);
        log.AddIf(title in titles, DuplicateTitle(k.name, title));
        ghost var mid, sofar := log.errors, When(title in titles, DuplicateTitle(k.name, title));
        titles := titles + {title};
        log.AddIf(description in descriptions, DuplicateDescription(k.name, description));
        sofar := Extend(start, mid, log, sofar,
                        When(description in descriptions, DuplicateDescription(k.name, description)));
        descriptions := descriptions + {description};
      }
      ReportsThen(old(log.errors), start, log.errors, DuplicateErrors(ks, n), DuplicateErrorsOf(ks, n));
    }
  }

  lemma NothingSeen(ks: seq<KameletInfo>, f: KameletInfo -> string)
    ensures Seen(ks, 0, f, {})
  {}

  // ----- placeholders and beans

  /** Walks a node and adds the placeholder names it mentions. */
  method CollectParams(node: Node, params: set<string>) returns (out: set<string>)
    ensures out == params + ParamNames(node)
    decreases node
  {
    out := params;
    match node
    case Str(s) =>
      var i := 0;
      ghost var found: seq<Match> := [];
      while i <= |s|
        invariant Scan(s) == found + ScanFrom(s, i)
        invariant out == params + set m | m in found :: m.name
        decreases |s| + 1 - i
      {
        var m := MatchAt(s, i);
        if m.Some? {
          out := out + {m.value.name};
          i := m.value.end;
          found := found + [m.value];
        } else {
          i := i + 1;
        }
      }
      assert found == Scan(s);
    case List(items) =>
      for i := 0 to |items|
        invariant out + ParamNamesOfItems(items[i..]) == params + ParamNamesOfItems(items)
      {
        assert items[i..][1..] == items[i + 1..];
        out := CollectParams(items[i], out);
      }
    case Map(entries) =>
      for i := 0 to |entries|
        invariant out + ParamNamesOfEntries(entries[i..]) == params + ParamNamesOfEntries(entries)
      {
        assert entries[i..][1..] == entries[i + 1..];
        out := CollectParams(entries[i].value, out);
      }
    case _ =>
  }

  method CollectBeanNames(k: KameletInfo) returns (out: set<string>)
    ensures out == BeanNames(Beans(k))
  {
    out := {};
    var beans := Beans(k);
    for i := 0 to |beans|
      invariant out == BeanNames(beans[..i])
    {
      var b := beans[i];
      assert beans[..i + 1][..i] == beans[..i];
      if b.Map? && !Lookup(b, "name").Null? {
        out := out + {ToString(Lookup(b, "name"))};
      }
    }
    assert beans[..|beans|] == beans;
  }

  method ReportUndeclared(name: string, used: set<string>, declared: set<string>, log: ErrorList)
    modifies log
    ensures Reports(old(log.errors), log.errors, UndeclaredErrors(name, used, declared))
  {
    hide Reports, Sorted;
    ghost var rule := p => When(p !in declared, Undeclared(p, name));
    var names := SortedElements(used);
    ReportsNothing(log.errors);
    for i := 0 to |names|
      invariant Reports(old(log.errors), log.errors, Each(names, rule, i))
    {
      var p := names[i];
      ghost var mid := log.errors;
      log.AddIf(p !in declared, Undeclared(p, name));
      ReportsThen(old(log.errors), mid, log.errors, Each(names, rule, i), rule(p));
    }
  }

  method ReportUnused(name: string, used: set<string>, declared: set<string>, log: ErrorList)
    modifies log
    ensures Reports(old(log.errors), log.errors, UnusedErrors(name, used, declared))
  {
    hide Reports, Sorted;
    ghost var rule := p => When(p !in used, Unused(p, name));
    var names := SortedElements(declared);
    ReportsNothing(log.errors);
    for i := 0 to |names|
      invariant Reports(old(log.errors), log.errors, Each(names, rule, i))
    {
      var p := names[i];
      ghost var mid := log.errors;
      log.AddIf(p !in used, Unused(p, name));
      ReportsThen(old(log.errors), mid, log.errors, Each(names, rule, i), rule(p));
    }
  }

  method VerifyUsedParamsOf(k: KameletInfo, log: ErrorList)
    modifies log
    ensures Reports(old(log.errors), log.errors, UsedParamErrors(k))
  {
    hide Reports, ParamNames, BeanNames, UndeclaredErrors, UnusedErrors;
    ReportsNothing(log.errors);
    if k.name in USED_PARAMS_EXEMPT {
      return;
    }
    var used := CollectParams(Template(k), {});
    assert used == ParamNames(Template(k));
    var beans := CollectBeanNames(k);
    var declared := PropertyKeys(k) + beans;
    ReportUndeclared(k.name, used, declared, log);
    ghost var mid := log.errors;
    ReportUnused(k.name, used, declared, log);
    ReportsThen(old(log.errors), mid, log.errors,
                UndeclaredErrors(k.name, used, declared), UnusedErrors(k.name, used, declared));
  }

  method VerifyUsedParams(ks: seq<KameletInfo>, log: ErrorList)
    modifies log
    ensures Reports(old(log.errors), log.errors, Each(ks, UsedParamErrors, |ks|))
  {
    hide Reports, UsedParamErrors;
    ReportsNothing(log.errors);
    for n := 0 to |ks|
      invariant Reports(old(log.errors), log.errors, Each(ks, UsedParamErrors, n))
    {
      ghost var mid := log.errors;
      VerifyUsedParamsOf(ks[n], log);
      ReportsThen(old(log.errors), mid, log.errors, Each(ks, UsedParamErrors, n), UsedParamErrors(ks[n]));
    }
  }

  // ----- template, dependencies, version

  method VerifyTemplateConvention(ks: seq<KameletInfo>, log: ErrorList)
    modifies log
    ensures Reports(old(log.errors), log.errors, Each(ks, TemplateErrors, |ks|))
  {
    hide Reports, Contains;
    ReportsNothing(log.errors);
    for n := 0 to |ks|
      invariant Reports(old(log.errors), log.errors, Each(ks, TemplateErrors, n))
    {
      var k := ks[n];
      ghost var mid := log.errors;
      ReportsNothing(mid);
      if Template(k).Map? {
        var template, tp := ToString(Template(k)), Label(k, TYPE_LABEL);
        if tp == "source" && !Contains(template, "kamelet:sink") {
          log.AddIf(true, MustRouteToSink(k.name));
        } else if tp == "sink" && !Contains(template, "kamelet:source") {
          log.AddIf(true, MustConsumeFromSource(k.name));
        }
      }
      ReportsThen(old(log.errors), mid, log.errors, Each(ks, TemplateErrors, n), TemplateErrors(k));
    }
  }

  method VerifyDependenciesOf(k: KameletInfo, log: ErrorList)
    modifies log
    ensures Reports(old(log.errors), log.errors, DependencyErrors(k))
  {
    hide Reports, StartsWith;
    ghost var rule := d => When(!GoodDependency(d), BadDependency(k.name, d));
    var dependencies := Dependencies(k);
    ReportsNothing(log.errors);
    for i := 0 to |dependencies|
      invariant Reports(old(log.errors), log.errors, Each(dependencies, rule, i))
    {
      var dep := dependencies[i];
      ghost var mid := log.errors;
      var bad := !StartsWith(dep, "camel:") && !StartsWith(dep, "mvn:") && !StartsWith(dep, "github:apache/");
      log.AddIf(bad, BadDependency(k.name, dep));
      ReportsThen(old(log.errors), mid, log.errors, Each(dependencies, rule, i), rule(dep));
    }
  }

  method VerifyDependencies(ks: seq<KameletInfo>, log: ErrorList)
    modifies log
    ensures Reports(old(log.errors), log.errors, Each(ks, DependencyErrors, |ks|))
  {
    hide Reports, DependencyErrors;
    ReportsNothing(log.errors);
    for n := 0 to |ks|
      invariant Reports(old(log.errors), log.errors, Each(ks, DependencyErrors, n))
    {
      ghost var mid := log.errors;
      VerifyDependenciesOf(ks[n], log);
      ReportsThen(old(log.errors), mid, log.errors, Each(ks, DependencyErrors, n), DependencyErrors(ks[n]));
    }
  }

  method VerifyCatalogVersion(ks: seq<KameletInfo>, log: ErrorList)
    modifies log
    ensures Reports(old(log.errors), log.errors, VersionErrors(ks))
  {
    hide Reports;
    var versions: map<string, nat> := map[];
    for n := 0 to |ks|
      invariant versions == VersionCounts(ks[..n])
    {
      var v := VersionOf(ks[n]);
      assert ks[..n + 1][..n] == ks[..n];
      versions := versions[v := if v in versions then versions[v] + 1 else 1];
    }
    assert ks[..|ks|] == ks;
    log.AddIf(|versions| > 1, InconsistentVersions(versions));
  }

  // ----- the whole validation

  method VerifyStructure(ks: seq<KameletInfo>, c: Casing, log: ErrorList)
    modifies log
    ensures Reports(old(log.errors), log.errors, StructuralErrors(ks, c))
  {
    hide Reports, Each;
    ghost var start := log.errors;
    VerifyFileNames(ks, log);
    ghost var mid, sofar := log.errors, Each(ks, FileNameErrors, |ks|);
    VerifyKameletType(ks, log);
    sofar := Extend(start, mid, log, sofar, Each(ks, TypeErrors, |ks|));
    mid := log.errors;
    VerifyParameters(ks, c, log);
    sofar := Extend(start, mid, log, sofar, Each(ks, k => ParameterErrors(k, c), |ks|));
  }

  method VerifyConventions(ks: seq<KameletInfo>, log: ErrorList)
    modifies log
    ensures Reports(old(log.errors), log.errors, ConventionErrors(ks))
  {
    hide Reports, Each, DuplicateErrors, VersionErrors;
    ghost var start := log.errors;
    VerifyAnnotations(ks, log);
    ghost var mid, sofar := log.errors, Each(ks, AnnotationErrors, |ks|);
    VerifyDescriptors(ks, log);
    sofar := Extend(start, mid, log, sofar, Each(ks, DescriptorErrors, |ks|));
    mid := log.errors;
    VerifyDuplicates(ks, log);
    sofar := Extend(start, mid, log, sofar, DuplicateErrors(ks, |ks|));
    mid := log.errors;
    VerifyUsedParams(ks, log);
    sofar := Extend(start, mid, log, sofar, Each(ks, UsedParamErrors, |ks|));
    mid := log.errors;
    VerifyTemplateConvention(ks, log);
    sofar := Extend(start, mid, log, sofar, Each(ks, TemplateErrors, |ks|));
    mid := log.errors;
    VerifyDependencies(ks, log);
    sofar := Extend(start, mid, log, sofar, Each(ks, DependencyErrors, |ks|));
    mid := log.errors;
    VerifyCatalogVersion(ks, log);
    sofar := Extend(start, mid, log, sofar, VersionErrors(ks));
  }

  /** validate: the structural errors if there are any, and otherwise the convention errors, in
      the order of the checks. Nothing is reported exactly when the catalog is well formed. */
  method Validate(ks: seq<KameletInfo>, c: Casing) returns (errors: seq<Error>)
    ensures errors == if StructuralErrors(ks, c) != [] then StructuralErrors(ks, c) else ConventionErrors(ks)
    ensures errors == [] <==> WellFormed(ks, c)
  {
    var log := new ErrorList();
    VerifyStructure(ks, c, log);
    StructuralErrorsMeaning(ks, c);
    hide StructuralErrors, ConventionErrors;
    if log.errors != [] {
      assert !StructureOkAll(ks, c);
      return log.errors;
    }
    VerifyConventions(ks, log);
    ConventionErrorsMeaning(ks, c);
    return log.errors;
  }
}
