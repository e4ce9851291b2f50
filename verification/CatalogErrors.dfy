/** Which errors the validator owes a catalog, kind by kind. */
module CatalogErrors {
  import opened Text
  import opened StringOrder
  import opened KameletDocuments
  import opened CatalogRules
  import opened CatalogTheorems
  import opened PrintedDocuments

  // ----- one property

  ghost predicate OwedForTitle(key: string, owner: string, title: string, c: Casing, x: Error) {
    match x
    case PropertyNoTitle(k, n) => k == key && n == owner && title == ""
    case LowerCaseWord(k, n, w) =>
      && k == key && n == owner && IsWordOf(title, ' ', w)
      && !IsStopWord(w, c) && !HasPunctuation(c.lower(w)) && c.upper(w[..1]) != w[..1]
    case TitleArticle(k, n, a) =>
      k == key && n == owner && (a == "The " || a == "A " || a == "An ") && StartsWith(title, a)
    case _ => false
  }

  ghost predicate OwedForProperty(owner: string, property: Entry, c: Casing, x: Error) {
    var key, p := property.key, property.value;
    p.Map? &&
    match x
    case PropertyNoType(k, n) => k == key && n == owner && TextOf(Lookup(p, "type")) == ""
    case PropertyNoDescription(k, n) => k == key && n == owner && TextOf(Lookup(p, "description")) == ""
    case _ => OwedForTitle(key, owner, TextOf(Lookup(p, "title")), c, x)
  }

  lemma WordErrorKinds(key: string, owner: string, title: string, c: Casing, x: Error)
    ensures x in WordErrors(key, owner, title, c) <==> x.LowerCaseWord? && OwedForTitle(key, owner, title, c, x)
  {
    var words := Split(title, ' ');
    EachMember(words, w => WordError(key, owner, w, c), |words|, x);
    hide Split, IsWordOf, Exempt, IsStopWord, HasPunctuation, WordErrors;
    forall w
      ensures IsWordOf(title, ' ', w) <==> w != "" && w in words
      ensures Exempt(w, c) <==> IsStopWord(w, c) || HasPunctuation(c.lower(w))
    {
      SplitWords(title, ' ', w);
      ExemptMeaning(w, c);
    }
    assert WordErrors(key, owner, title, c) == Each(words, w => WordError(key, owner, w, c), |words|) by {
      WordErrorsAre(key, owner, title, c);
    }
    if x.LowerCaseWord? && OwedForTitle(key, owner, title, c, x) {
      var i :| 0 <= i < |words| && words[i] == x.word;
      assert x in WordError(key, owner, words[i], c);
    }
  }

  lemma WordErrorsAre(key: string, owner: string, title: string, c: Casing)
    ensures var words := Split(title, ' ');
            WordErrors(key, owner, title, c) == Each(words, w => WordError(key, owner, w, c), |words|)
  {}

  lemma NoWords(w: string)
    ensures !IsWordOf("", ' ', w)
  {}

  lemma ArticleKinds(key: string, owner: string, title: string, article: string, x: Error)
    ensures x in When(StartsWith(title, article), TitleArticle(key, owner, article)) <==>
            x == TitleArticle(key, owner, article) && StartsWith(title, article)
  {
    hide StartsWith;
  }

  lemma HeadKinds(key: string, owner: string, title: string, c: Casing, x: Error)
    ensures x in (if title == "" then [PropertyNoTitle(key, owner)] else WordErrors(key, owner, title, c)) <==>
            !x.TitleArticle? && OwedForTitle(key, owner, title, c, x)
  {
    WordErrorKinds(key, owner, title, c, x);
    if x.LowerCaseWord? {
      NoWords(x.word);
    }
    hide WordErrors, IsWordOf, IsStopWord, HasPunctuation, StartsWith;
  }

  lemma TitleErrorKinds(key: string, owner: string, title: string, c: Casing, x: Error)
    ensures x in PropertyTitleErrors(key, owner, title, c) <==> OwedForTitle(key, owner, title, c, x)
  {
    HeadKinds(key, owner, title, c, x);
    ArticleKinds(key, owner, title, "The ", x);
    ArticleKinds(key, owner, title, "A ", x);
    ArticleKinds(key, owner, title, "An ", x);
    hide WordErrors, IsWordOf, IsStopWord, HasPunctuation, StartsWith, When;
  }

  lemma PropertyErrorKinds(owner: string, property: Entry, c: Casing, x: Error)
    ensures x in PropertyErrors(owner, property, c) <==> OwedForProperty(owner, property, c, x)
  {
    TitleErrorKinds(property.key, owner, TextOf(Lookup(property.value, "title")), c, x);
    hide PropertyTitleErrors, TextOf, Lookup, IsWordOf, IsStopWord, HasPunctuation, StartsWith;
  }

  // ----- the first phase

  ghost predicate ListedTwice(l: seq<string>, x: string) {
    exists i, j :: 0 <= i < j < |l| && l[i] == x && l[j] == x
  }

  ghost predicate OwedForNames(k: KameletInfo, x: Error) {
    var tp := Label(k, "camel.apache.org/kamelet.type");
    match x
    case NameMismatch(path, name) => path == k.path && name == k.name && k.name != Stem(k.fileName)
    case WrongSuffix(name, suffix) =>
      && name == k.name && (tp == "source" || tp == "sink" || tp == "action")
      && suffix == "-" + tp && !EndsWith(k.name, suffix)
    case InvalidType(name, t) => name == k.name && t == tp && tp != "source" && tp != "sink" && tp != "action"
    case _ => false
  }

  ghost predicate OwedForParameters(k: KameletInfo, c: Casing, x: Error) {
    if x.NoDefinition? then x.name == k.name && !Definition(k).Map?
    else if x.NoTemplate? then x.name == k.name && Definition(k).Map? && !Template(k).Map?
    else Definition(k).Map? && Template(k).Map? && OwedForDefinition(k, c, x)
  }

  ghost predicate OwedForDefinition(k: KameletInfo, c: Casing, x: Error) {
    var tp := Label(k, "camel.apache.org/kamelet.type");
    match x
    case RequiredTwice(p, name) => name == k.name && ListedTwice(Required(k), p)
    case RequiredUndefined(p, name) => name == k.name && p in Required(k) && p !in PropertyKeys(k)
    case NoTitle(name) => name == k.name && Title(k) == ""
    case TitleSuffix(name, title, suffix) =>
      && name == k.name && title == Title(k) && title != "" && |tp| > 1
      && suffix == c.upper(tp[..1]) + tp[1..] && !EndsWith(title, suffix)
    case NoDescription(name) => name == k.name && Description(k) == ""
    case NotObject(name) => name == k.name && ToString(Lookup(Definition(k), "type")) != "object"
    case _ => exists i :: 0 <= i < |Properties(k)| && OwedForProperty(k.name, Properties(k)[i], c, x)
  }

  lemma NameErrorKinds(k: KameletInfo, x: Error)
    ensures x in FileNameErrors(k) + TypeErrors(k) <==> OwedForNames(k, x)
  {
    hide Stem, Label, EndsWith;
  }

  lemma {:induction false} RepeatKinds(items: seq<string>, e: string -> Error, n: nat, x: Error)
    requires n <= |items|
    ensures x in Repeats(items, e, n) <==> exists p :: x == e(p) && ListedTwice(items[..n], p)
  {
    if n > 0 {
      RepeatKinds(items, e, n - 1, x);
      forall p
        ensures ListedTwice(items[..n], p) <==>
                ListedTwice(items[..n - 1], p) || (p == items[n - 1] && p in items[..n - 1])
      {
        assert items[..n] == items[..n - 1] + [items[n - 1]];
        TwiceInLonger(items[..n - 1], items[n - 1], p);
      }
      hide ListedTwice;
    }
  }

  lemma TwiceInLonger(front: seq<string>, last: string, p: string)
    ensures ListedTwice(front + [last], p) <==> ListedTwice(front, p) || (p == last && p in front)
  {
    var all := front + [last];
    if ListedTwice(front, p) {
      var i, j :| 0 <= i < j < |front| && front[i] == p && front[j] == p;
      assert all[i] == p && all[j] == p;
    }
    if p == last && p in front {
      var i :| 0 <= i < |front| && front[i] == p;
      assert all[i] == p && all[|front|] == p;
    }
    if ListedTwice(all, p) {
      var i, j :| 0 <= i < j < |all| && all[i] == p && all[j] == p;
      assert front[i] == p;
      assert j < |front| ==> front[j] == p;
    }
  }

  lemma RequiredErrorKinds(owner: string, required: seq<string>, keys: set<string>, x: Error)
    ensures x in RequiredTwiceErrors(owner, required) <==>
            x.RequiredTwice? && x.name == owner && ListedTwice(required, x.property)
    ensures x in RequiredUndefinedErrors(owner, required, keys) <==>
            x.RequiredUndefined? && x.name == owner && x.property in required && x.property !in keys
  {
    RepeatKinds(required, p => RequiredTwice(p, owner), |required|, x);
    assert required[..|required|] == required;
    EachMember(required, p => When(p !in keys, RequiredUndefined(p, owner)), |required|, x);
    hide ListedTwice;
  }

  lemma AllPropertyErrorKinds(owner: string, properties: seq<Entry>, c: Casing, x: Error)
    ensures x in AllPropertyErrors(owner, properties, c) <==>
            exists i :: 0 <= i < |properties| && OwedForProperty(owner, properties[i], c, x)
  {
    EachMember(properties, e => PropertyErrors(owner, e, c), |properties|, x);
    forall i | 0 <= i < |properties|
      ensures x in PropertyErrors(owner, properties[i], c) <==> OwedForProperty(owner, properties[i], c, x)
    {
      PropertyErrorKinds(owner, properties[i], c, x);
      hide PropertyErrors, OwedForProperty;
    }
  }

  lemma OwnErrorKinds(k: KameletInfo, c: Casing, x: Error)
    ensures x in TitleErrors(k, c) <==> (x.NoTitle? || x.TitleSuffix?) && OwedForDefinition(k, c, x)
    ensures x in When(Description(k) == "", NoDescription(k.name)) <==> x.NoDescription? && OwedForDefinition(k, c, x)
    ensures x in When(ToString(Lookup(Definition(k), "type")) != "object", NotObject(k.name)) <==>
            x.NotObject? && OwedForDefinition(k, c, x)
  {
    hide OwedForProperty, EndsWith, Definition, Title, Description, Label, Lookup, ToString, Properties;
  }

  lemma DefinitionErrorKinds(k: KameletInfo, c: Casing, x: Error)
    requires Definition(k).Map? && Template(k).Map?
    ensures x in ParameterErrors(k, c) <==> OwedForDefinition(k, c, x)
  {
    RequiredErrorKinds(k.name, Required(k), PropertyKeys(k), x);
    AllPropertyErrorKinds(k.name, Properties(k), c, x);
    OnlyPropertyKinds(k, c, x);
    OwnErrorKinds(k, c, x);
    hide RequiredTwiceErrors, RequiredUndefinedErrors, AllPropertyErrors, ListedTwice, OwedForProperty, EndsWith,
      Definition, Template, Title, Description, Label, Lookup, ToString, Required, PropertyKeys, Properties,
      TitleErrors, When;
  }

  lemma OnlyPropertyKinds(k: KameletInfo, c: Casing, x: Error)
    ensures x.RequiredTwice? || x.RequiredUndefined? || x.NoTitle? || x.TitleSuffix? || x.NoDescription?
            || x.NotObject? ==>
              forall e :: !OwedForProperty(k.name, e, c, x)
  {}

  lemma ParameterErrorKinds(k: KameletInfo, c: Casing, x: Error)
    ensures x in ParameterErrors(k, c) <==> OwedForParameters(k, c, x)
  {
    if Definition(k).Map? && Template(k).Map? {
      DefinitionErrorKinds(k, c, x);
      NoSuchKinds(k, c, x);
    }
    hide OwedForDefinition;
  }

  lemma NoSuchKinds(k: KameletInfo, c: Casing, x: Error)
    ensures x.NoDefinition? || x.NoTemplate? ==> !OwedForDefinition(k, c, x)
  {}

  /** One of the Kamelets owes the error by this rule. */
  ghost predicate InSome(ks: seq<KameletInfo>, rule: KameletInfo -> seq<Error>, x: Error) {
    exists i :: 0 <= i < |ks| && x in rule(ks[i])
  }

  lemma InEach(ks: seq<KameletInfo>, rule: KameletInfo -> seq<Error>, x: Error)
    ensures x in Each(ks, rule, |ks|) <==> InSome(ks, rule, x)
  {
    EachMember(ks, rule, |ks|, x);
  }

  /** The first phase reports exactly what is owed for the names or the parameters of some Kamelet. */
  lemma StructuralErrorKinds(ks: seq<KameletInfo>, c: Casing, x: Error)
    ensures x in StructuralErrors(ks, c) <==>
            exists i :: 0 <= i < |ks| && (OwedForNames(ks[i], x) || OwedForParameters(ks[i], c, x))
  {
    var parameters := k => ParameterErrors(k, c);
    InEach(ks, FileNameErrors, x);
    InEach(ks, TypeErrors, x);
    InEach(ks, parameters, x);
    StructuralErrorsAre(ks, c, parameters);
    forall i | 0 <= i < |ks|
      ensures x in FileNameErrors(ks[i]) || x in TypeErrors(ks[i]) <==> OwedForNames(ks[i], x)
      ensures x in parameters(ks[i]) <==> OwedForParameters(ks[i], c, x)
    {
      NameErrorKinds(ks[i], x);
      ParameterErrorKinds(ks[i], c, x);
    }
    hide FileNameErrors, TypeErrors, ParameterErrors, OwedForNames, OwedForParameters, Each, StructuralErrors;
  }

  lemma StructuralErrorsAre(ks: seq<KameletInfo>, c: Casing, parameters: KameletInfo -> seq<Error>)
    requires parameters == (k => ParameterErrors(k, c))
    ensures StructuralErrors(ks, c) ==
            Each(ks, FileNameErrors, |ks|) + Each(ks, TypeErrors, |ks|) + Each(ks, parameters, |ks|)
  {}
}
