/** In which order the errors are reported. */
module ErrorOrder {
  import opened Text
  import opened StringOrder
  import opened KameletDocuments
  import opened CatalogRules
  import opened CatalogTheorems
  import opened CatalogErrors
  import opened ConventionKinds

  // ----- item after item

  lemma {:induction false} EachOfFront<T>(a: seq<T>, b: seq<T>, rule: T -> seq<Error>, n: nat)
    requires n <= |a| && n <= |b| && forall i :: 0 <= i < n ==> a[i] == b[i]
    ensures Each(a, rule, n) == Each(b, rule, n)
  {
    if n > 0 {
      EachOfFront(a, b, rule, n - 1);
    }
  }

  lemma {:induction false} EachUpTo<T>(a: seq<T>, b: seq<T>, rule: T -> seq<Error>, n: nat)
    requires n <= |b|
    ensures Each(a + b, rule, |a| + n) == Each(a, rule, |a|) + Each(b, rule, n)
  {
    if n == 0 {
      EachOfFront(a + b, a, rule, |a|);
    } else {
      EachUpTo(a, b, rule, n - 1);
    }
  }

  /** A rule reports item after item. */
  lemma EachInOrder<T>(a: seq<T>, b: seq<T>, x: T, rule: T -> seq<Error>)
    ensures Each(a + b, rule, |a + b|) == Each(a, rule, |a|) + Each(b, rule, |b|)
    ensures Each([x], rule, 1) == rule(x) && Each([], rule, 0) == []
  {
    hide Each;
    EachUpTo(a, b, rule, |b|);
    EachOfOne(x, rule);
  }

  lemma EachOfOne<T>(x: T, rule: T -> seq<Error>)
    ensures Each([x], rule, 1) == rule(x) && Each([], rule, 0) == []
  {
    assert Each([x], rule, 1) == Each([x], rule, 0) + rule(x);
  }

  predicate RepeatsEarlier(items: seq<string>, i: nat)
    requires i < |items|
  {
    items[i] in items[..i]
  }

  /** ps are the places of the repetitions, from left to right. */
  ghost predicate RepeatPlaces(items: seq<string>, n: nat, ps: seq<nat>)
    requires n <= |items|
  {
    && (forall k, l :: 0 <= k < l < |ps| ==> ps[k] < ps[l])
    && (forall i: nat :: i in ps <==> i < n && RepeatsEarlier(items, i))
  }

  /** One error for each item that repeats an earlier one, in their order. */
  lemma {:induction false} RepeatsInOrder(items: seq<string>, e: string -> Error, n: nat) returns (ps: seq<nat>)
    requires n <= |items|
    ensures RepeatPlaces(items, n, ps) && |ps| == |Repeats(items, e, n)|
    ensures forall k :: 0 <= k < |ps| ==> ps[k] < n && Repeats(items, e, n)[k] == e(items[ps[k]])
  {
    hide RepeatPlaces;
    ps := [];
    if n == 0 {
      NoPlaces(items);
    } else {
      ps := RepeatsInOrder(items, e, n - 1);
      PlacesOneMore(items, n - 1, ps);
      if items[n - 1] in items[..n - 1] {
        ps := ps + [n - 1];
      }
    }
  }

  lemma NoPlaces(items: seq<string>)
    ensures RepeatPlaces(items, 0, [])
  {}

  lemma PlacesOneMore(items: seq<string>, n: nat, ps: seq<nat>)
    requires n < |items| && RepeatPlaces(items, n, ps)
    ensures RepeatPlaces(items, n + 1, if RepeatsEarlier(items, n) then ps + [n] else ps)
  {
    hide RepeatsEarlier;
    var qs := if RepeatsEarlier(items, n) then ps + [n] else ps;
    assert forall k :: 0 <= k < |ps| ==> ps[k] in ps;
    forall i: nat
      ensures i in qs <==> i < n + 1 && RepeatsEarlier(items, i)
    {
      assert i in qs <==> i in ps || (i == n && RepeatsEarlier(items, n));
    }
  }

  // ----- check after check

  ghost predicate InOrder(l: seq<Error>, rank: Error -> int) {
    forall i, j :: 0 <= i < j < |l| ==> rank(l[i]) <= rank(l[j])
  }

  /** The errors are in order, and their ranks lie between the bounds. */
  ghost predicate Within(l: seq<Error>, rank: Error -> int, low: int, high: int) {
    InOrder(l, rank) && forall x :: x in l ==> low <= rank(x) <= high
  }

  lemma WithinNone(rank: Error -> int, low: int)
    ensures Within([], rank, low, low)
  {}

  lemma Follows(a: seq<Error>, b: seq<Error>, rank: Error -> int, low: int, middle: int, next: int, high: int)
    requires Within(a, rank, low, middle) && Within(b, rank, next, high) && low <= middle <= next <= high
    ensures Within(a + b, rank, low, high)
  {
    assert forall i :: 0 <= i < |a| ==> a[i] in a;
    assert forall i :: 0 <= i < |b| ==> b[i] in b;
  }

  lemma WithinOne(l: seq<Error>, rank: Error -> int, r: int)
    requires forall x :: x in l ==> rank(x) == r
    ensures Within(l, rank, r, r)
  {
    assert forall i :: 0 <= i < |l| ==> l[i] in l;
  }

  lemma WithinWhen(condition: bool, x: Error, rank: Error -> int)
    ensures Within(When(condition, x), rank, rank(x), rank(x))
  {}

  lemma TwoFollow(a: seq<Error>, b: seq<Error>, rank: Error -> int, r: int)
    requires Within(a, rank, r, r) && Within(b, rank, r + 1, r + 1)
    ensures Within(a + b, rank, r, r + 1)
  {
    hide Within;
    Follows(a, b, rank, r, r, r + 1, r + 1);
  }

  lemma ThreeFollow(a: seq<Error>, b: seq<Error>, c: seq<Error>, rank: Error -> int, r: int)
    requires Within(a, rank, r, r) && Within(b, rank, r + 1, r + 1) && Within(c, rank, r + 2, r + 2)
    ensures Within(a + b + c, rank, r, r + 2)
  {
    hide Within;
    TwoFollow(a, b, rank, r);
    Follows(a + b, c, rank, r, r + 1, r + 2, r + 2);
  }

  lemma FourFollow(a: seq<Error>, b: seq<Error>, c: seq<Error>, d: seq<Error>, rank: Error -> int, r: int)
    requires Within(a, rank, r, r) && Within(b, rank, r + 1, r + 1) && Within(c, rank, r + 2, r + 2)
    requires Within(d, rank, r + 3, r + 3)
    ensures Within(a + b + c + d, rank, r, r + 3)
  {
    hide Within;
    ThreeFollow(a, b, c, rank, r);
    Follows(a + b + c, d, rank, r, r + 2, r + 3, r + 3);
  }

  lemma SixFollow(
      a: seq<Error>, b: seq<Error>, c: seq<Error>, d: seq<Error>, e: seq<Error>, f: seq<Error>, rank: Error -> int,
      r: int)
    requires Within(a, rank, r, r) && Within(b, rank, r + 1, r + 1) && Within(c, rank, r + 2, r + 2)
    requires Within(d, rank, r + 3, r + 3) && Within(e, rank, r + 4, r + 4) && Within(f, rank, r + 5, r + 5)
    ensures Within(a + b + c + d + e + f, rank, r, r + 5)
  {
    hide Within;
    FourFollow(a, b, c, d, rank, r);
    Follows(a + b + c + d, e, rank, r, r + 3, r + 4, r + 4);
    Follows(a + b + c + d + e, f, rank, r, r + 4, r + 5, r + 5);
  }

  lemma AroundFollow(
      a: seq<Error>, b: seq<Error>, c: seq<Error>, rank: Error -> int, first: int, low: int, high: int, last: int)
    requires Within(a, rank, first, first) && Within(b, rank, low, high) && Within(c, rank, last, last)
    requires first <= low <= high <= last
    ensures Within(a + b + c, rank, first, last)
  {
    hide Within;
    Follows(a, b, rank, first, first, low, high);
    Follows(a + b, c, rank, first, high, last, last);
  }

  /** The checks of one property. */
  function PropertyRank(x: Error): int {
    match x
    case PropertyNoType(_, _) => 0
    case PropertyNoTitle(_, _) => 1
    case LowerCaseWord(_, _, _) => 1
    case TitleArticle(_, _, article) => if article == "The " then 2 else if article == "A " then 3 else 4
    case PropertyNoDescription(_, _) => 5
    case MissingCredentials(_, _) => 6
    case DeprecatedDescriptor(_, _) => 7
    case DescriptorTwice(_, _, _) => 8
    case _ => -1
  }

  /** The checks of one Kamelet. */
  function KameletRank(x: Error): int {
    match x
    case RequiredTwice(_, _) => 0
    case NoTitle(_) => 1
    case TitleSuffix(_, _, _) => 1
    case NoDescription(_) => 2
    case NotObject(_) => 3
    case RequiredUndefined(_, _) => 5
    case NoIcon(_) => 6
    case NoVersion(_) => 7
    case WrongProvider(_, _) => 8
    case DuplicateTitle(_, _) => 9
    case DuplicateDescription(_, _) => 10
    case Undeclared(_, _) => 11
    case Unused(_, _) => 12
    case _ => 4
  }

  /** The checks that walk over the whole catalog. */
  function PhaseRank(x: Error): int {
    match x
    case NameMismatch(_, _) => 0
    case WrongSuffix(_, _) => 1
    case InvalidType(_, _) => 1
    case NoIcon(_) => 3
    case NoVersion(_) => 3
    case WrongProvider(_, _) => 3
    case MissingCredentials(_, _) => 4
    case DeprecatedDescriptor(_, _) => 4
    case DescriptorTwice(_, _, _) => 4
    case DuplicateTitle(_, _) => 5
    case DuplicateDescription(_, _) => 5
    case Undeclared(_, _) => 6
    case Unused(_, _) => 6
    case MustRouteToSink(_) => 7
    case MustConsumeFromSource(_) => 7
    case BadDependency(_, _) => 8
    case InconsistentVersions(_) => 9
    case _ => 2
  }

  lemma WordRanks(key: string, owner: string, title: string, c: Casing)
    ensures forall x :: x in WordErrors(key, owner, title, c) ==> x.LowerCaseWord?
  {
    forall x | x in WordErrors(key, owner, title, c)
      ensures x.LowerCaseWord?
    {
      WordErrorKinds(key, owner, title, c, x);
    }
  }

  lemma HeadWithin(key: string, owner: string, title: string, c: Casing)
    ensures Within(if title == "" then [PropertyNoTitle(key, owner)] else WordErrors(key, owner, title, c),
                   PropertyRank, 1, 1)
  {
    hide WordErrors, Within;
    WordRanks(key, owner, title, c);
    if title == "" {
      WithinOne([PropertyNoTitle(key, owner)], PropertyRank, 1);
    } else {
      WithinOne(WordErrors(key, owner, title, c), PropertyRank, 1);
    }
  }

  lemma ArticleWithin(key: string, owner: string, title: string, article: string)
    ensures Within(When(StartsWith(title, article), TitleArticle(key, owner, article)), PropertyRank,
                   PropertyRank(TitleArticle(key, owner, article)), PropertyRank(TitleArticle(key, owner, article)))
    ensures PropertyRank(TitleArticle(key, owner, "The ")) == 2 && PropertyRank(TitleArticle(key, owner, "A ")) == 3
    ensures PropertyRank(TitleArticle(key, owner, "An ")) == 4
  {
    WithinWhen(StartsWith(title, article), TitleArticle(key, owner, article), PropertyRank);
    hide Within, When, StartsWith;
  }

  lemma TitleOrder(key: string, owner: string, title: string, c: Casing)
    ensures Within(PropertyTitleErrors(key, owner, title, c), PropertyRank, 1, 4)
  {
    hide *;
    var h := if title == "" then [PropertyNoTitle(key, owner)] else WordErrors(key, owner, title, c);
    var the := When(StartsWith(title, "The "), TitleArticle(key, owner, "The "));
    var a := When(StartsWith(title, "A "), TitleArticle(key, owner, "A "));
    var an := When(StartsWith(title, "An "), TitleArticle(key, owner, "An "));
    HeadWithin(key, owner, title, c);
    ArticleWithin(key, owner, title, "The ");
    ArticleWithin(key, owner, title, "A ");
    ArticleWithin(key, owner, title, "An ");
    FourFollow(h, the, a, an, PropertyRank, 1);
    TitleErrorsAre(key, owner, title, c, h, the, a, an);
  }

  lemma TitleErrorsAre(
      key: string, owner: string, title: string, c: Casing, h: seq<Error>, the: seq<Error>, a: seq<Error>,
      an: seq<Error>)
    requires h == if title == "" then [PropertyNoTitle(key, owner)] else WordErrors(key, owner, title, c)
    requires the == When(StartsWith(title, "The "), TitleArticle(key, owner, "The "))
    requires a == When(StartsWith(title, "A "), TitleArticle(key, owner, "A "))
    requires an == When(StartsWith(title, "An "), TitleArticle(key, owner, "An "))
    ensures PropertyTitleErrors(key, owner, title, c) == h + the + a + an
  {
    hide WordErrors, StartsWith, When;
  }

  /** Of one property first the type is reported, then the title with its words before its articles,
      then the description. */
  lemma PropertyOrder(owner: string, e: Entry, c: Casing)
    ensures Within(PropertyErrors(owner, e, c), PropertyRank, 0, 5)
  {
    hide *;
    var tp, title := TextOf(Lookup(e.value, "type")), TextOf(Lookup(e.value, "title"));
    var description := TextOf(Lookup(e.value, "description"));
    var t := When(tp == "", PropertyNoType(e.key, owner));
    var d := When(description == "", PropertyNoDescription(e.key, owner));
    PropertyRanksAre(e.key, owner);
    WithinWhen(tp == "", PropertyNoType(e.key, owner), PropertyRank);
    WithinWhen(description == "", PropertyNoDescription(e.key, owner), PropertyRank);
    TitleOrder(e.key, owner, title, c);
    NothingWithin(PropertyRank, 0, 5);
    AroundFollow(t, PropertyTitleErrors(e.key, owner, title, c), d, PropertyRank, 0, 1, 4, 5);
    PropertyErrorsAre(owner, e, c);
  }

  lemma PropertyRanksAre(key: string, owner: string)
    ensures PropertyRank(PropertyNoType(key, owner)) == 0 && PropertyRank(PropertyNoDescription(key, owner)) == 5
    ensures PropertyRank(MissingCredentials(key, owner)) == 6 && PropertyRank(DeprecatedDescriptor(key, owner)) == 7
  {}

  lemma PropertyErrorsAre(owner: string, e: Entry, c: Casing)
    ensures PropertyErrors(owner, e, c) ==
            if !e.value.Map? then []
            else
              When(TextOf(Lookup(e.value, "type")) == "", PropertyNoType(e.key, owner))
              + PropertyTitleErrors(e.key, owner, TextOf(Lookup(e.value, "title")), c)
              + When(TextOf(Lookup(e.value, "description")) == "", PropertyNoDescription(e.key, owner))
  {
    hide When, TextOf, Lookup, PropertyTitleErrors;
  }

  lemma NothingWithin(rank: Error -> int, low: int, high: int)
    ensures Within([], rank, low, high)
  {}

  lemma TwiceWithin(key: string, owner: string, ds: seq<string>)
    ensures Within(DescriptorTwiceErrors(key, owner, ds), PropertyRank, 8, 8)
  {
    hide Within;
    forall x | x in DescriptorTwiceErrors(key, owner, ds)
      ensures PropertyRank(x) == 8
    {
      RepeatKinds(ds, d => DescriptorTwice(key, owner, d), |ds|, x);
    }
    WithinOne(DescriptorTwiceErrors(key, owner, ds), PropertyRank, 8);
  }

  /** Of one property's descriptors the missing credentials come first and the repetitions last. */
  lemma DescriptorOrder(owner: string, e: Entry)
    ensures Within(PropertyDescriptorErrors(owner, e), PropertyRank, 6, 8)
  {
    hide *;
    var ds := Texts(Lookup(e.value, "x-descriptors"));
    var missing := TextOf(Lookup(e.value, "format")) == "password" && CREDENTIALS_DESCRIPTOR !in ds;
    var m := When(missing, MissingCredentials(e.key, owner));
    var deprecated := When(Deprecated(ds), DeprecatedDescriptor(e.key, owner));
    PropertyRanksAre(e.key, owner);
    WithinWhen(missing, MissingCredentials(e.key, owner), PropertyRank);
    WithinWhen(Deprecated(ds), DeprecatedDescriptor(e.key, owner), PropertyRank);
    TwiceWithin(e.key, owner, ds);
    NothingWithin(PropertyRank, 6, 8);
    ThreeFollow(m, deprecated, DescriptorTwiceErrors(e.key, owner, ds), PropertyRank, 6);
    DescriptorErrorsAre(owner, e, ds, missing);
  }

  lemma DescriptorErrorsAre(owner: string, e: Entry, ds: seq<string>, missing: bool)
    requires ds == Texts(Lookup(e.value, "x-descriptors"))
    requires missing <==> TextOf(Lookup(e.value, "format")) == "password" && CREDENTIALS_DESCRIPTOR !in ds
    ensures PropertyDescriptorErrors(owner, e) ==
            if !e.value.Map? then []
            else
              When(missing, MissingCredentials(e.key, owner))
              + When(Deprecated(ds), DeprecatedDescriptor(e.key, owner)) + DescriptorTwiceErrors(e.key, owner, ds)
  {
    hide When, Texts, TextOf, Lookup, Deprecated, DescriptorTwiceErrors;
  }

  // ----- one Kamelet

  lemma RequiredWithin(k: KameletInfo)
    ensures Within(RequiredTwiceErrors(k.name, Required(k)), KameletRank, 0, 0)
    ensures Within(RequiredUndefinedErrors(k.name, Required(k), PropertyKeys(k)), KameletRank, 5, 5)
  {
    hide Within;
    var twice := RequiredTwiceErrors(k.name, Required(k));
    var undefined := RequiredUndefinedErrors(k.name, Required(k), PropertyKeys(k));
    forall x
      ensures x in twice ==> KameletRank(x) == 0
      ensures x in undefined ==> KameletRank(x) == 5
    {
      RequiredErrorKinds(k.name, Required(k), PropertyKeys(k), x);
      hide RequiredTwiceErrors, RequiredUndefinedErrors, Required, PropertyKeys;
    }
    WithinOne(twice, KameletRank, 0);
    WithinOne(undefined, KameletRank, 5);
  }

  lemma PropertiesWithin(k: KameletInfo, c: Casing)
    ensures Within(AllPropertyErrors(k.name, Properties(k), c), KameletRank, 4, 4)
  {
    hide Within;
    var l := AllPropertyErrors(k.name, Properties(k), c);
    forall x | x in l
      ensures KameletRank(x) == 4
    {
      AllPropertyErrorKinds(k.name, Properties(k), c, x);
      OnlyPropertyKinds(k, c, x);
      OtherKinds(k.name, c, x);
      hide AllPropertyErrors, OwedForProperty, Properties;
    }
    WithinOne(l, KameletRank, 4);
  }

  lemma OtherKinds(owner: string, c: Casing, x: Error)
    ensures (exists e :: OwedForProperty(owner, e, c, x)) ==> KameletRank(x) == 4
  {}

  lemma DefinitionWithin(k: KameletInfo, c: Casing)
    ensures Within(TitleErrors(k, c), KameletRank, 1, 1)
    ensures Within(When(Description(k) == "", NoDescription(k.name)), KameletRank, 2, 2)
    ensures Within(When(ToString(Lookup(Definition(k), "type")) != "object", NotObject(k.name)), KameletRank, 3, 3)
  {
    hide Within, When, Description, ToString, Lookup, Definition, Title, Label;
    WithinOne(TitleErrors(k, c), KameletRank, 1) by {
      TitleRanks(k, c);
    }
    WithinWhen(Description(k) == "", NoDescription(k.name), KameletRank);
    WithinWhen(ToString(Lookup(Definition(k), "type")) != "object", NotObject(k.name), KameletRank);
  }

  lemma TitleRanks(k: KameletInfo, c: Casing)
    ensures forall x :: x in TitleErrors(k, c) ==> KameletRank(x) == 1
  {
    hide Title, Label;
  }

  lemma MissingWithin(name: string)
    ensures Within([NoDefinition(name)], KameletRank, 0, 5) && Within([NoTemplate(name)], KameletRank, 0, 5)
  {}

  /** Of the parameters first the repeated required ones are reported, then the title, the
      description and the type of the definition, the properties, and the undefined ones. */
  lemma ParameterOrder(k: KameletInfo, c: Casing)
    ensures Within(ParameterErrors(k, c), KameletRank, 0, 5)
  {
    hide *;
    var description := When(Description(k) == "", NoDescription(k.name));
    var tp := When(ToString(Lookup(Definition(k), "type")) != "object", NotObject(k.name));
    RequiredWithin(k);
    PropertiesWithin(k, c);
    DefinitionWithin(k, c);
    MissingWithin(k.name);
    SixFollow(RequiredTwiceErrors(k.name, Required(k)), TitleErrors(k, c), description, tp,
              AllPropertyErrors(k.name, Properties(k), c),
              RequiredUndefinedErrors(k.name, Required(k), PropertyKeys(k)), KameletRank, 0);
    ParameterErrorsAre(k, c);
  }

  lemma ParameterErrorsAre(k: KameletInfo, c: Casing)
    ensures ParameterErrors(k, c) ==
            if !Definition(k).Map? then [NoDefinition(k.name)]
            else if !Template(k).Map? then [NoTemplate(k.name)]
            else
              RequiredTwiceErrors(k.name, Required(k)) + TitleErrors(k, c)
              + When(Description(k) == "", NoDescription(k.name))
              + When(ToString(Lookup(Definition(k), "type")) != "object", NotObject(k.name))
              + AllPropertyErrors(k.name, Properties(k), c)
              + RequiredUndefinedErrors(k.name, Required(k), PropertyKeys(k))
  {
    hide When, TitleErrors, AllPropertyErrors, RequiredTwiceErrors, RequiredUndefinedErrors, Definition, Template,
      Description, Lookup, ToString, Required, Properties, PropertyKeys;
  }

  /** Of the annotations first the icon, then the version, then the provider. */
  lemma AnnotationOrder(k: KameletInfo)
    ensures InOrder(AnnotationErrors(k), KameletRank)
  {
    hide Annotation;
  }

  lemma UseWithin(k: KameletInfo, used: set<string>, declared: set<string>)
    ensures Within(UndeclaredErrors(k.name, used, declared), KameletRank, 11, 11)
    ensures Within(UnusedErrors(k.name, used, declared), KameletRank, 12, 12)
  {
    hide Within;
    var a, b := UndeclaredErrors(k.name, used, declared), UnusedErrors(k.name, used, declared);
    forall x
      ensures x in a ==> KameletRank(x) == 11
      ensures x in b ==> KameletRank(x) == 12
    {
      ListedErrors(used, declared, k.name, x);
      ListedErrors(declared, used, k.name, x);
      hide UndeclaredErrors, UnusedErrors;
    }
    WithinOne(a, KameletRank, 11);
    WithinOne(b, KameletRank, 12);
  }

  /** What is used and not declared comes first. */
  lemma UseOrder(k: KameletInfo)
    ensures Within(UsedParamErrors(k), KameletRank, 11, 12)
  {
    hide Within, UndeclaredErrors, UnusedErrors, ParamNames, Declared, Template;
    var used, declared := ParamNames(Template(k)), Declared(k);
    UseWithin(k, used, declared);
    NothingWithin(KameletRank, 11, 12);
    TwoFollow(UndeclaredErrors(k.name, used, declared), UnusedErrors(k.name, used, declared), KameletRank, 11);
  }

  lemma DuplicateOrder(ks: seq<KameletInfo>, j: nat)
    requires j < |ks|
    ensures InOrder(DuplicateErrorsOf(ks, j), KameletRank)
  {
    hide Definition, Title, Description, Earlier;
  }

  // ----- the catalog

  lemma EachRank(ks: seq<KameletInfo>, rule: KameletInfo -> seq<Error>, rank: Error -> int, r: int)
    requires forall i, x :: 0 <= i < |ks| && x in rule(ks[i]) ==> rank(x) == r
    ensures Within(Each(ks, rule, |ks|), rank, r, r)
  {
    forall x | x in Each(ks, rule, |ks|)
      ensures rank(x) == r
    {
      EachMember(ks, rule, |ks|, x);
    }
    WithinOne(Each(ks, rule, |ks|), rank, r);
  }

  lemma ParameterRanks(k: KameletInfo, c: Casing, x: Error)
    ensures x in ParameterErrors(k, c) ==> PhaseRank(x) == 2
  {
    ParameterErrorKinds(k, c, x);
    OwnPhase(k, c, x);
    hide OwedForDefinition, ParameterErrors;
  }

  lemma OwnPhase(k: KameletInfo, c: Casing, x: Error)
    ensures OwedForDefinition(k, c, x) ==> PhaseRank(x) == 2
  {}

  lemma NameRanks(k: KameletInfo, x: Error)
    ensures x in FileNameErrors(k) ==> PhaseRank(x) == 0
    ensures x in TypeErrors(k) ==> PhaseRank(x) == 1
  {
    hide Stem, Label, EndsWith;
  }

  /** The first phase checks the file names, then the types, then the parameters. */
  lemma StructuralOrder(ks: seq<KameletInfo>, c: Casing)
    ensures Within(StructuralErrors(ks, c), PhaseRank, 0, 2)
  {
    hide *;
    var parameters := k => ParameterErrors(k, c);
    var names, types := Each(ks, FileNameErrors, |ks|), Each(ks, TypeErrors, |ks|);
    forall i, x | 0 <= i < |ks|
      ensures x in FileNameErrors(ks[i]) ==> PhaseRank(x) == 0
      ensures x in TypeErrors(ks[i]) ==> PhaseRank(x) == 1
      ensures x in parameters(ks[i]) ==> PhaseRank(x) == 2
    {
      NameRanks(ks[i], x);
      ParameterRanks(ks[i], c, x);
    }
    EachRank(ks, FileNameErrors, PhaseRank, 0);
    EachRank(ks, TypeErrors, PhaseRank, 1);
    EachRank(ks, parameters, PhaseRank, 2);
    StructuralErrorsAre(ks, c, parameters);
    ThreeFollow(names, types, Each(ks, parameters, |ks|), PhaseRank, 0);
  }

  lemma SevenFollow(
      a: seq<Error>, b: seq<Error>, c: seq<Error>, d: seq<Error>, e: seq<Error>, f: seq<Error>, g: seq<Error>,
      rank: Error -> int, r: int)
    requires Within(a, rank, r, r) && Within(b, rank, r + 1, r + 1) && Within(c, rank, r + 2, r + 2)
    requires Within(d, rank, r + 3, r + 3) && Within(e, rank, r + 4, r + 4) && Within(f, rank, r + 5, r + 5)
    requires Within(g, rank, r + 6, r + 6)
    ensures Within(a + b + c + d + e + f + g, rank, r, r + 6)
  {
    hide Within;
    SixFollow(a, b, c, d, e, f, rank, r);
    Follows(a + b + c + d + e + f, g, rank, r, r + 5, r + 6, r + 6);
  }

  lemma ConventionRanks(k: KameletInfo, x: Error)
    ensures x in AnnotationErrors(k) ==> PhaseRank(x) == 3
    ensures x in UsedParamErrors(k) ==> PhaseRank(x) == 6
    ensures x in TemplateErrors(k) ==> PhaseRank(x) == 7
    ensures x in DependencyErrors(k) ==> PhaseRank(x) == 8
  {
    hide AnnotationErrors, UsedParamErrors, TemplateErrors, DependencyErrors;
    AnnotationErrorKinds(k, x);
    UseErrorKinds(k, x);
    EndpointErrorKinds(k, x);
    DependencyErrorsKinds(k, x);
    hide Annotation, Mentions, DeclaredName, Label, Template, Dependencies, GoodPrefix;
  }

  lemma DescriptorRanks(k: KameletInfo, x: Error)
    requires HasDefinition(k)
    ensures x in DescriptorErrors(k) ==> PhaseRank(x) == 4
  {
    DescriptorErrorsKinds(k.name, Properties(k), x);
    hide AllDescriptorErrors, Definition, Properties, Texts, Lookup, TextOf, ListedTwice, StartsWith;
  }

  lemma DuplicateRanks(ks: seq<KameletInfo>)
    requires forall i :: 0 <= i < |ks| ==> HasDefinition(ks[i])
    ensures Within(DuplicateErrors(ks, |ks|), PhaseRank, 5, 5)
  {
    hide DuplicateErrors, Within, OwedForDuplicate, HasDefinition;
    forall x | x in DuplicateErrors(ks, |ks|)
      ensures PhaseRank(x) == 5
    {
      DuplicateKinds(ks, |ks|, x);
      var j :| 0 <= j < |ks| && OwedForDuplicate(ks, j, x);
      DuplicateRank(ks, j, x);
    }
    WithinOne(DuplicateErrors(ks, |ks|), PhaseRank, 5);
  }

  lemma DuplicateRank(ks: seq<KameletInfo>, j: nat, x: Error)
    requires j < |ks| && HasDefinition(ks[j]) && OwedForDuplicate(ks, j, x)
    ensures PhaseRank(x) == 5
  {
    hide Definition, Title, Description;
  }

  lemma VersionRanks(ks: seq<KameletInfo>)
    ensures Within(VersionErrors(ks), PhaseRank, 9, 9)
  {
    WithinWhen(|VersionCounts(ks)| > 1, InconsistentVersions(VersionCounts(ks)), PhaseRank);
    hide Within, VersionCounts;
  }

  /** Once the first phase has nothing to report, the later one checks annotations, descriptors,
      duplicates, parameters, endpoints, dependencies and versions, in this order. */
  lemma ConventionOrder(ks: seq<KameletInfo>, c: Casing)
    requires StructuralErrors(ks, c) == []
    ensures Within(ConventionErrors(ks), PhaseRank, 3, 9)
  {
    hide *;
    StructuralErrorsMeaning(ks, c);
    forall i | 0 <= i < |ks|
      ensures HasDefinition(ks[i])
    {
      HasDefinitionOf(ks, c, i);
    }
    forall i, x | 0 <= i < |ks|
      ensures x in AnnotationErrors(ks[i]) ==> PhaseRank(x) == 3
      ensures x in DescriptorErrors(ks[i]) ==> PhaseRank(x) == 4
      ensures x in UsedParamErrors(ks[i]) ==> PhaseRank(x) == 6
      ensures x in TemplateErrors(ks[i]) ==> PhaseRank(x) == 7
      ensures x in DependencyErrors(ks[i]) ==> PhaseRank(x) == 8
    {
      ConventionRanks(ks[i], x);
      DescriptorRanks(ks[i], x);
    }
    EachRank(ks, AnnotationErrors, PhaseRank, 3);
    EachRank(ks, DescriptorErrors, PhaseRank, 4);
    DuplicateRanks(ks);
    EachRank(ks, UsedParamErrors, PhaseRank, 6);
    EachRank(ks, TemplateErrors, PhaseRank, 7);
    EachRank(ks, DependencyErrors, PhaseRank, 8);
    VersionRanks(ks);
    SevenFollow(
      Each(ks, AnnotationErrors, |ks|), Each(ks, DescriptorErrors, |ks|), DuplicateErrors(ks, |ks|),
      Each(ks, UsedParamErrors, |ks|), Each(ks, TemplateErrors, |ks|), Each(ks, DependencyErrors, |ks|),
      VersionErrors(ks), PhaseRank, 3);
    ConventionErrorsAre(ks);
  }

  lemma ConventionErrorsAre(ks: seq<KameletInfo>)
    ensures ConventionErrors(ks) ==
            Each(ks, AnnotationErrors, |ks|) + Each(ks, DescriptorErrors, |ks|) + DuplicateErrors(ks, |ks|)
            + Each(ks, UsedParamErrors, |ks|) + Each(ks, TemplateErrors, |ks|) + Each(ks, DependencyErrors, |ks|)
            + VersionErrors(ks)
  {
    hide Each, DuplicateErrors, VersionErrors;
  }
}
