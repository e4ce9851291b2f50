/** A catalog owes no errors exactly when it is well formed. */
module CatalogTheorems {
  import opened Text
  import opened KameletDocuments
  import opened Placeholders
  import opened StringOrder
  import opened CatalogRules
  import opened PrintedDocuments

  // ----- a well-formed Kamelet

  ghost predicate WellNamed(k: KameletInfo) {
    && k.name == Stem(k.fileName)
    && Label(k, "camel.apache.org/kamelet.type") in {"source", "sink", "action"}
    && EndsWith(k.name, "-" + Label(k, "camel.apache.org/kamelet.type"))
  }

  ghost predicate Distinct(s: seq<string>) {
    forall i, j :: 0 <= i < j < |s| ==> s[i] != s[j]
  }

  predicate IsStopWord(w: string, c: Casing) {
    c.lower(w) in STOP_WORDS || c.lower(w) in EXTRA_EXEMPT
  }

  ghost predicate HasPunctuation(w: string) {
    exists i :: 0 <= i < |w| && !('A' <= w[i] <= 'Z' || 'a' <= w[i] <= 'z' || '0' <= w[i] <= '9')
  }

  ghost predicate WellTitled(title: string, c: Casing) {
    && title != ""
    && !StartsWith(title, "The ") && !StartsWith(title, "A ") && !StartsWith(title, "An ")
    && forall w :: IsWordOf(title, ' ', w) ==>
         IsStopWord(w, c) || HasPunctuation(c.lower(w)) || c.upper(w[..1]) == w[..1]
  }

  ghost predicate WellDescribedProperty(p: Node, c: Casing) {
    p.Map? ==>
      && TextOf(Lookup(p, "type")) != ""
      && WellTitled(TextOf(Lookup(p, "title")), c)
      && TextOf(Lookup(p, "description")) != ""
  }

  ghost predicate WellParameterized(k: KameletInfo, c: Casing) {
    var properties, required := Properties(k), Required(k);
    && Definition(k).Map? && Template(k).Map?
    && Distinct(required)
    && (forall i :: 0 <= i < |required| ==> required[i] in PropertyKeys(k))
    && Title(k) != ""
    && (var tp := Label(k, "camel.apache.org/kamelet.type");
        |tp| > 1 ==> EndsWith(Title(k), c.upper(tp[..1]) + tp[1..]))
    && Description(k) != ""
    && ToString(Lookup(Definition(k), "type")) == "object"
    && forall i :: 0 <= i < |properties| ==> WellDescribedProperty(properties[i].value, c)
  }

  ghost predicate StructureOk(k: KameletInfo, c: Casing) {
    WellNamed(k) && WellParameterized(k, c)
  }

  ghost predicate WellAnnotated(k: KameletInfo) {
    && Annotation(k, "camel.apache.org/kamelet.icon") != ""
    && Annotation(k, "camel.apache.org/catalog.version") != ""
    && Annotation(k, "camel.apache.org/provider") == "Apache Software Foundation"
  }

  ghost predicate WellDescriptored(p: Node) {
    p.Map? ==>
      var ds := Texts(Lookup(p, "x-descriptors"));
      && Distinct(ds)
      && (TextOf(Lookup(p, "format")) == "password" ==> "urn:camel:group:credentials" in ds)
      && forall i :: 0 <= i < |ds| ==> !StartsWith(ds[i], "urn:alm:descriptor:com.tectonic.ui")
  }

  /** Some text inside the node has this placeholder among its leftmost disjoint matches. */
  ghost predicate Mentions(n: Node, name: string) {
    match n
    case Str(s) => exists ms: seq<Match>, k: int :: LeftmostDisjoint(s, 0, ms) && 0 <= k < |ms| && ms[k].name == name
    case List(items) => exists i :: 0 <= i < |items| && Mentions(items[i], name)
    case Map(entries) => exists i :: 0 <= i < |entries| && Mentions(entries[i].value, name)
    case _ => false
  }

  ghost predicate DeclaredName(k: KameletInfo, name: string) {
    || (exists i :: 0 <= i < |Properties(k)| && Properties(k)[i].key == name)
    || (exists i :: 0 <= i < |Beans(k)| && NamesBean(Beans(k)[i], name))
  }

  ghost predicate UsesWhatItDeclares(k: KameletInfo) {
    k.name !in USED_PARAMS_EXEMPT ==> forall name :: Mentions(Template(k), name) <==> DeclaredName(k, name)
  }

  /** A source sends to the sink it is bound to, and a sink consumes from its source: some key or
      scalar of the template holds the endpoint. */
  ghost predicate WellConnected(k: KameletInfo) {
    var tp := Label(k, "camel.apache.org/kamelet.type");
    && (tp == "source" ==> Holds(Template(k), "kamelet:sink"))
    && (tp == "sink" ==> Holds(Template(k), "kamelet:source"))
  }

  ghost predicate ConventionsOk(k: KameletInfo) {
    && WellAnnotated(k)
    && (forall i :: 0 <= i < |Properties(k)| ==> WellDescriptored(Properties(k)[i].value))
    && UsesWhatItDeclares(k)
    && WellConnected(k)
    && forall i :: 0 <= i < |Dependencies(k)| ==> GoodPrefix(Dependencies(k)[i])
  }

  predicate GoodPrefix(dep: string) {
    "camel:" <= dep || "mvn:" <= dep || "github:apache/" <= dep
  }

  // ----- a well-formed catalog

  ghost predicate DistinctUpTo(ks: seq<KameletInfo>, f: KameletInfo -> string, n: nat)
    requires n <= |ks|
  {
    forall i, j :: 0 <= i < j < n ==> f(ks[i]) != f(ks[j])
  }

  ghost predicate PairwiseDistinct(ks: seq<KameletInfo>, f: KameletInfo -> string) {
    DistinctUpTo(ks, f, |ks|)
  }

  ghost predicate OneVersion(ks: seq<KameletInfo>) {
    forall i, j :: 0 <= i < j < |ks| ==>
      Annotation(ks[i], "camel.apache.org/catalog.version") == Annotation(ks[j], "camel.apache.org/catalog.version")
  }

  ghost predicate StructureOkAll(ks: seq<KameletInfo>, c: Casing) {
    forall i :: 0 <= i < |ks| ==> StructureOk(ks[i], c)
  }

  ghost predicate WellFormed(ks: seq<KameletInfo>, c: Casing) {
    && StructureOkAll(ks, c)
    && (forall i :: 0 <= i < |ks| ==> ConventionsOk(ks[i]))
    && PairwiseDistinct(ks, Title) && PairwiseDistinct(ks, Description)
    && OneVersion(ks)
  }

  // ----- rules over lists

  lemma {:induction false} EachEmpty<T>(items: seq<T>, rule: T -> seq<Error>, n: nat)
    requires n <= |items|
    ensures Each(items, rule, n) == [] <==> forall i :: 0 <= i < n ==> rule(items[i]) == []
  {
    if n > 0 {
      EachEmpty(items, rule, n - 1);
    }
  }

  lemma {:induction false} EachMember<T>(items: seq<T>, rule: T -> seq<Error>, n: nat, e: Error)
    requires n <= |items|
    ensures e in Each(items, rule, n) <==> exists i :: 0 <= i < n && e in rule(items[i])
  {
    if n > 0 {
      EachMember(items, rule, n - 1, e);
    }
  }

  lemma DistinctLonger(front: seq<string>, last: string)
    ensures Distinct(front + [last]) <==> Distinct(front) && last !in front
  {
    var all := front + [last];
    if last in front {
      var i :| 0 <= i < |front| && front[i] == last;
      assert all[i] == all[|front|];
    }
    if !Distinct(front) {
      var i, j :| 0 <= i < j < |front| && front[i] == front[j];
      assert all[i] == all[j];
    }
  }

  lemma {:induction false} RepeatsEmpty(items: seq<string>, e: string -> Error, n: nat)
    requires n <= |items|
    ensures Repeats(items, e, n) == [] <==> Distinct(items[..n])
  {
    hide Distinct;
    if n == 0 {
      NothingRepeats();
      assert items[..n] == [];
    } else {
      RepeatsEmpty(items, e, n - 1);
      DistinctLonger(items[..n - 1], items[n - 1]);
      assert items[..n] == items[..n - 1] + [items[n - 1]];
    }
  }

  lemma NothingRepeats()
    ensures Distinct([])
  {}

  lemma {:induction false} RepeatsMember(items: seq<string>, e: string -> Error, n: nat, x: Error)
    requires n <= |items| && x in Repeats(items, e, n)
    ensures exists item :: x == e(item)
  {
    if x !in Repeats(items, e, n - 1) {
      assert x == e(items[n - 1]);
    } else {
      RepeatsMember(items, e, n - 1, x);
    }
  }

  // ----- file names and words

  predicate IsTerminator(end: string) {
    end == "" || end == "\r\n" || (|end| == 1 && end[0] in {'\n', '\r', '\U{0085}', '\U{2028}', '\U{2029}'})
  }

  lemma EndsInBoth(s: string)
    ensures EndsWith(s, "\r\n") <==> |s| >= 2 && s[|s| - 2] == '\r' && s[|s| - 1] == '\n'
  {
    if |s| >= 2 {
      assert s[|s| - 2..] == [s[|s| - 2], s[|s| - 1]];
    }
  }

  lemma TerminatorAfter(f: string, end: string)
    requires f != "" && f[|f| - 1] == 'l' && IsTerminator(end)
    ensures TerminatorLength(f + end) == |end|
  {
    var g := f + end;
    EndsInBoth(g);
    hide EndsWith;
    assert g[|f| - 1] == 'l' && g[|f|..] == end;
    assert forall i :: 0 <= i < |end| ==> g[|f| + i] == end[i];
  }

  lemma StemOf(f: string, n: nat, name: string)
    requires n <= |f| && TerminatorLength(f) == |f| - n && f[..n] == name + FILE_SUFFIX
    ensures Stem(f) == name + f[n..]
  {
    hide TerminatorLength;
    var whole := name + FILE_SUFFIX;
    assert whole[|name|..] == FILE_SUFFIX && whole[..|name|] == name;
  }

  /** The suffix is cut off, at the end or before a final line terminator. */
  lemma StemCutsSuffix(name: string, end: string)
    requires IsTerminator(end)
    ensures Stem(name + FILE_SUFFIX + end) == name + end
  {
    hide TerminatorLength, IsTerminator, Stem;
    var whole := name + FILE_SUFFIX;
    assert whole[|whole| - 1] == FILE_SUFFIX[|FILE_SUFFIX| - 1] == 'l';
    TerminatorAfter(whole, end);
    var f := whole + end;
    assert f[..|whole|] == whole && f[|whole|..] == end;
    StemOf(f, |whole|, name);
  }

  lemma TerminatorIsCut(f: string)
    ensures IsTerminator(f[|f| - TerminatorLength(f)..])
  {}

  /** Any other name is its own stem. */
  lemma StemKeepsOthers(f: string)
    requires forall name, end :: IsTerminator(end) ==> f != name + FILE_SUFFIX + end
    ensures Stem(f) == f
  {
    hide TerminatorLength, IsTerminator, EndsWith;
    var n := |f| - TerminatorLength(f);
    if EndsWith(f[..n], FILE_SUFFIX) {
      SuffixBefore(f, n);
      TerminatorIsCut(f);
    }
  }

  lemma SuffixBefore(f: string, n: nat)
    requires n <= |f| && EndsWith(f[..n], FILE_SUFFIX)
    ensures exists name :: f == name + FILE_SUFFIX + f[n..]
  {
    var m := n - |FILE_SUFFIX|;
    assert f[..n][m..] == f[m..n];
    assert f == f[..m] + f[m..n] + f[n..];
  }

  /** Stripping changes exactly the words with some character that is not alphanumeric. */
  lemma {:induction false} StripMeaning(w: string)
    ensures |StripPunctuation(w)| <= |w|
    ensures StripPunctuation(w) == w <==> !HasPunctuation(w)
  {
    if w != "" {
      StripMeaning(w[1..]);
      assert w == [w[0]] + w[1..];
      if HasPunctuation(w[1..]) {
        var i :| 0 <= i < |w[1..]| && !AlphaNumeric(w[1..][i]);
        assert !AlphaNumeric(w[i + 1]);
      }
      if AlphaNumeric(w[0]) && StripPunctuation(w) == w {
        assert StripPunctuation(w)[1..] == w[1..];
      }
    }
  }

  lemma ExemptMeaning(w: string, c: Casing)
    ensures Exempt(w, c) <==> IsStopWord(w, c) || HasPunctuation(c.lower(w))
  {
    StripMeaning(c.lower(w));
  }

  /** The documented rule: a stop word, or trailing punctuation. */
  predicate ExemptAsDocumented(w: string, c: Casing) {
    var lower := c.lower(w);
    IsStopWord(w, c) || (lower != "" && !AlphaNumeric(lower[|lower| - 1]))
  }

  /** The code exempts as documented exactly the words that are stop words, end in punctuation, or
      have none at all. */
  lemma ExemptVersusDocumented(w: string, c: Casing)
    ensures (Exempt(w, c) <==> ExemptAsDocumented(w, c))
            <==> ExemptAsDocumented(w, c) || !HasPunctuation(c.lower(w))
  {
    ExemptMeaning(w, c);
  }

  /** Punctuation inside a word is enough. */
  lemma InnerPunctuationIsExempt(c: Casing)
    requires c.lower("e-mail") == "e-mail"
    ensures Exempt("e-mail", c) && !ExemptAsDocumented("e-mail", c)
  {
    ExemptMeaning("e-mail", c);
    assert !AlphaNumeric("e-mail"[1]);
  }

  // ----- one Kamelet

  lemma RequiredErrorsMeaning(name: string, required: seq<string>, keys: set<string>)
    ensures RequiredTwiceErrors(name, required) == [] <==> Distinct(required)
    ensures RequiredUndefinedErrors(name, required, keys) == [] <==>
            forall i :: 0 <= i < |required| ==> required[i] in keys
  {
    RepeatsEmpty(required, p => RequiredTwice(p, name), |required|);
    assert required[..|required|] == required;
    EachEmpty(required, p => When(p !in keys, RequiredUndefined(p, name)), |required|);
  }

  lemma WordErrorsMeaning(key: string, name: string, title: string, c: Casing)
    ensures WordErrors(key, name, title, c) == [] <==>
            forall w :: IsWordOf(title, ' ', w) ==>
              IsStopWord(w, c) || HasPunctuation(c.lower(w)) || c.upper(w[..1]) == w[..1]
  {
    var words := Split(title, ' ');
    EachEmpty(words, w => WordError(key, name, w, c), |words|);
    hide Split, IsWordOf, Exempt, IsStopWord, HasPunctuation;
    forall w
      ensures IsWordOf(title, ' ', w) <==> w != "" && w in words
      ensures Exempt(w, c) <==> IsStopWord(w, c) || HasPunctuation(c.lower(w))
    {
      SplitWords(title, ' ', w);
      ExemptMeaning(w, c);
    }
    forall i | 0 <= i < |words|
      ensures WordError(key, name, words[i], c) == [] <==>
              (IsWordOf(title, ' ', words[i]) ==> Exempt(words[i], c) || c.upper(words[i][..1]) == words[i][..1])
    {
      assert words[i] in words;
    }
  }

  lemma PropertyTitleErrorsMeaning(key: string, name: string, title: string, c: Casing)
    ensures PropertyTitleErrors(key, name, title, c) == [] <==> WellTitled(title, c)
  {
    WordErrorsMeaning(key, name, title, c);
    hide WordErrors, IsStopWord, HasPunctuation, Capitalized, IsWordOf, StartsWith;
  }

  lemma PropertyErrorsMeaning(name: string, property: Entry, c: Casing)
    ensures PropertyErrors(name, property, c) == [] <==> WellDescribedProperty(property.value, c)
  {
    if property.value.Map? {
      PropertyTitleErrorsMeaning(property.key, name, TextOf(Lookup(property.value, "title")), c);
    }
    hide PropertyTitleErrors, WellTitled, Lookup, TextOf;
  }

  lemma AllPropertyErrorsMeaning(name: string, properties: seq<Entry>, c: Casing)
    ensures AllPropertyErrors(name, properties, c) == [] <==>
            forall i :: 0 <= i < |properties| ==> WellDescribedProperty(properties[i].value, c)
  {
    EachEmpty(properties, e => PropertyErrors(name, e, c), |properties|);
    forall i | 0 <= i < |properties|
      ensures PropertyErrors(name, properties[i], c) == [] <==> WellDescribedProperty(properties[i].value, c)
    {
      PropertyErrorsMeaning(name, properties[i], c);
      hide PropertyErrors, WellDescribedProperty;
    }
  }

  lemma StructureMeaning(k: KameletInfo, c: Casing)
    ensures FileNameErrors(k) + TypeErrors(k) == [] <==> WellNamed(k)
    ensures ParameterErrors(k, c) == [] <==> WellParameterized(k, c)
  {
    AllPropertyErrorsMeaning(k.name, Properties(k), c);
    RequiredErrorsMeaning(k.name, Required(k), PropertyKeys(k));
    hide AllPropertyErrors, RequiredTwiceErrors, RequiredUndefinedErrors;
  }

  lemma DescriptorTwiceErrorsMeaning(key: string, name: string, ds: seq<string>)
    ensures DescriptorTwiceErrors(key, name, ds) == [] <==> Distinct(ds)
  {
    RepeatsEmpty(ds, d => DescriptorTwice(key, name, d), |ds|);
    assert ds[..|ds|] == ds;
  }

  lemma PropertyDescriptorErrorsMeaning(name: string, property: Entry)
    ensures PropertyDescriptorErrors(name, property) == [] <==> WellDescriptored(property.value)
  {
    DescriptorTwiceErrorsMeaning(property.key, name, Texts(Lookup(property.value, "x-descriptors")));
    hide DescriptorTwiceErrors, Lookup, Texts;
  }

  lemma AllDescriptorErrorsMeaning(name: string, properties: seq<Entry>)
    ensures AllDescriptorErrors(name, properties) == [] <==>
            forall i :: 0 <= i < |properties| ==> WellDescriptored(properties[i].value)
  {
    EachEmpty(properties, e => PropertyDescriptorErrors(name, e), |properties|);
    forall i | 0 <= i < |properties|
      ensures PropertyDescriptorErrors(name, properties[i]) == [] <==> WellDescriptored(properties[i].value)
    {
      PropertyDescriptorErrorsMeaning(name, properties[i]);
      hide PropertyDescriptorErrors, WellDescriptored;
    }
  }

  lemma ScanMentions(s: string, name: string)
    ensures Mentions(Str(s), name) <==> name in ParamNames(Str(s))
  {
    if Mentions(Str(s), name) {
      var ms: seq<Match>, k: int :| LeftmostDisjoint(s, 0, ms) && 0 <= k < |ms| && ms[k].name == name;
      LeftmostDisjointIsScan(s, ms);
      assert ms[k] in Scan(s);
    }
    if name in ParamNames(Str(s)) {
      var m :| m in Scan(s) && m.name == name;
      var k :| 0 <= k < |Scan(s)| && Scan(s)[k] == m;
      ScanIsLeftmostDisjoint(s, 0);
    }
  }

  lemma {:induction false} MentionsMeaning(n: Node, name: string)
    ensures Mentions(n, name) <==> name in ParamNames(n)
    decreases n
  {
    match n
    case Str(s) => ScanMentions(s, name);
    case List(items) => MentionsItems(items, name);
    case Map(entries) => MentionsEntries(entries, name);
    case _ =>
  }

  lemma {:induction false} MentionsItems(items: seq<Node>, name: string)
    ensures (exists i :: 0 <= i < |items| && Mentions(items[i], name)) <==> name in ParamNamesOfItems(items)
    decreases items
  {
    if items != [] {
      MentionsMeaning(items[0], name);
      MentionsItems(items[1..], name);
      assert forall i :: 0 < i < |items| ==> items[i] == items[1..][i - 1];
      hide Mentions, ParamNames;
    }
  }

  lemma {:induction false} MentionsEntries(entries: seq<Entry>, name: string)
    ensures (exists i :: 0 <= i < |entries| && Mentions(entries[i].value, name)) <==>
            name in ParamNamesOfEntries(entries)
    decreases entries
  {
    if entries != [] {
      MentionsMeaning(entries[0].value, name);
      MentionsEntries(entries[1..], name);
      assert forall i :: 0 < i < |entries| ==> entries[i] == entries[1..][i - 1];
      hide Mentions, ParamNames;
    }
  }

  lemma {:induction false} BeanNamesMeaning(beans: seq<Node>, name: string)
    ensures name in BeanNames(beans) <==> exists i :: 0 <= i < |beans| && NamesBean(beans[i], name)
  {
    if beans != [] {
      BeanNamesMeaning(beans[..|beans| - 1], name);
    }
  }

  lemma UsedParamErrorsMeaning(k: KameletInfo)
    ensures UsedParamErrors(k) == [] <==> UsesWhatItDeclares(k)
  {
    if k.name !in USED_PARAMS_EXEMPT {
      var used, declared := ParamNames(Template(k)), Declared(k);
      forall name
        ensures Mentions(Template(k), name) <==> name in used
        ensures DeclaredName(k, name) <==> name in declared
      {
        MentionsMeaning(Template(k), name);
        BeanNamesMeaning(Beans(k), name);
      }
      hide Mentions, ParamNames, Declared, DeclaredName;
      UndeclaredErrorsMeaning(k.name, used, declared);
      UnusedErrorsMeaning(k.name, used, declared);
    }
  }

  lemma UndeclaredErrorsMeaning(name: string, used: set<string>, declared: set<string>)
    ensures UndeclaredErrors(name, used, declared) == [] <==> used <= declared
  {
    var names := Sorted(used);
    EachEmpty(names, p => When(p !in declared, Undeclared(p, name)), |names|);
    SortedLists(used);
    hide Sorted, Ascending;
    forall p | p in used
      ensures p in names
    {}
  }

  lemma UnusedErrorsMeaning(name: string, used: set<string>, declared: set<string>)
    ensures UnusedErrors(name, used, declared) == [] <==> declared <= used
  {
    var names := Sorted(declared);
    EachEmpty(names, p => When(p !in used, Unused(p, name)), |names|);
    SortedLists(declared);
    hide Sorted, Ascending;
    forall p | p in declared
      ensures p in names
    {}
  }

  lemma DependencyErrorsMeaning(k: KameletInfo)
    ensures DependencyErrors(k) == [] <==>
            forall i :: 0 <= i < |Dependencies(k)| ==> GoodDependency(Dependencies(k)[i])
  {
    EachEmpty(Dependencies(k), d => When(!GoodDependency(d), BadDependency(k.name, d)), |Dependencies(k)|);
  }

  /** None of the later per-Kamelet checks has anything to report. */
  ghost predicate OwesNoConvention(k: KameletInfo) {
    && AnnotationErrors(k) == [] && DescriptorErrors(k) == [] && UsedParamErrors(k) == []
    && TemplateErrors(k) == [] && DependencyErrors(k) == []
  }

  /** The endpoint is looked for in the printed template. */
  lemma TemplateErrorsMeaning(k: KameletInfo)
    requires Template(k).Map?
    ensures TemplateErrors(k) == [] <==> WellConnected(k)
  {
    ShownExactly(Template(k), "kamelet:sink");
    ShownExactly(Template(k), "kamelet:source");
    hide Contains, Holds, ToString;
  }

  lemma ConventionMeaning(k: KameletInfo)
    requires Definition(k).Map? && Template(k).Map?
    ensures OwesNoConvention(k) <==> ConventionsOk(k)
  {
    AllDescriptorErrorsMeaning(k.name, Properties(k));
    UsedParamErrorsMeaning(k);
    DependencyErrorsMeaning(k);
    hide UsedParamErrors, UsesWhatItDeclares, AllDescriptorErrors, WellDescriptored, DependencyErrors;
    assert AnnotationErrors(k) == [] <==> WellAnnotated(k);
    TemplateErrorsMeaning(k);
    hide TemplateErrors, WellConnected;
  }

  // ----- the catalog

  lemma StructuralErrorsMeaning(ks: seq<KameletInfo>, c: Casing)
    ensures StructuralErrors(ks, c) == [] <==> StructureOkAll(ks, c)
  {
    hide Each, FileNameErrors, TypeErrors, ParameterErrors, WellNamed, WellParameterized;
    EachEmpty(ks, FileNameErrors, |ks|);
    EachEmpty(ks, TypeErrors, |ks|);
    EachEmpty(ks, k => ParameterErrors(k, c), |ks|);
    forall i | 0 <= i < |ks|
      ensures FileNameErrors(ks[i]) == [] && TypeErrors(ks[i]) == [] && ParameterErrors(ks[i], c) == [] <==>
              StructureOk(ks[i], c)
    {
      StructureMeaning(ks[i], c);
    }
    hide StructureOk;
  }

  predicate HasDefinition(k: KameletInfo) {
    Definition(k).Map?
  }


  lemma DistinctOneMore(ks: seq<KameletInfo>, f: KameletInfo -> string, n: nat)
    requires 0 < n <= |ks| && forall i :: 0 <= i < n ==> HasDefinition(ks[i])
    ensures DistinctUpTo(ks, f, n) <==> DistinctUpTo(ks, f, n - 1) && !Earlier(ks, n - 1, f)
  {
    hide Definition;
  }

  /** Titles and descriptions differ among the first n Kamelets. */
  ghost predicate NoDuplicates(ks: seq<KameletInfo>, n: nat)
    requires n <= |ks|
  {
    DistinctUpTo(ks, Title, n) && DistinctUpTo(ks, Description, n)
  }

  lemma NoDuplicatesOneMore(ks: seq<KameletInfo>, n: nat)
    requires 0 < n <= |ks| && forall i :: 0 <= i < n ==> HasDefinition(ks[i])
    ensures NoDuplicates(ks, n) <==>
            NoDuplicates(ks, n - 1) && !Earlier(ks, n - 1, Title) && !Earlier(ks, n - 1, Description)
  {
    hide DistinctUpTo, HasDefinition, Earlier;
    DistinctOneMore(ks, Title, n);
    DistinctOneMore(ks, Description, n);
  }

  lemma DuplicateErrorsOne(ks: seq<KameletInfo>, j: nat)
    requires j < |ks| && HasDefinition(ks[j])
    ensures DuplicateErrorsOf(ks, j) == [] <==> !Earlier(ks, j, Title) && !Earlier(ks, j, Description)
  {
    hide Definition, Title, Description, Earlier;
  }

  lemma {:induction false} DuplicateErrorsMeaning(ks: seq<KameletInfo>, n: nat)
    requires n <= |ks| && forall i :: 0 <= i < n ==> HasDefinition(ks[i])
    ensures DuplicateErrors(ks, n) == [] <==> NoDuplicates(ks, n)
  {
    hide HasDefinition, NoDuplicates, Earlier, DuplicateErrorsOf;
    if n == 0 {
      NoneAreDistinct(ks);
    } else {
      DuplicateErrorsMeaning(ks, n - 1);
      DuplicateErrorsOne(ks, n - 1);
      NoDuplicatesOneMore(ks, n);
    }
  }

  lemma NoneAreDistinct(ks: seq<KameletInfo>)
    ensures NoDuplicates(ks, 0)
  {}

  /** The count of a version is the number of Kamelets that carry it. */
  function CarriersOf(ks: seq<KameletInfo>, v: string): nat {
    if ks == [] then 0
    else
      var last := ks[|ks| - 1];
      CarriersOf(ks[..|ks| - 1], v) + if Annotation(last, "camel.apache.org/catalog.version") == v then 1 else 0
  }

  lemma {:induction false} VersionCountsMeaning(ks: seq<KameletInfo>, v: string)
    ensures v in VersionCounts(ks) <==> exists i :: 0 <= i < |ks| && VersionOf(ks[i]) == v
    ensures CarriersOf(ks, v) == if v in VersionCounts(ks) then VersionCounts(ks)[v] else 0
  {
    if ks != [] {
      VersionCountsMeaning(ks[..|ks| - 1], v);
    }
  }

  lemma SingletonKeys(m: map<string, nat>)
    ensures |m| > 1 <==> exists v, w :: v in m && w in m && v != w
  {
    assert |m| == |m.Keys|;
    if exists v, w :: v in m && w in m && v != w {
      var v, w :| v in m && w in m && v != w;
      assert {v, w} <= m.Keys;
      assert |m.Keys - {v, w}| == |m.Keys| - 2;
    } else if m != map[] {
      var v :| v in m;
      assert m.Keys == {v};
    }
  }

  /** m has the versions of the catalog as its keys. */
  ghost predicate KeysAreVersions(m: map<string, nat>, ks: seq<KameletInfo>) {
    && (forall i :: 0 <= i < |ks| ==> VersionOf(ks[i]) in m)
    && (forall v :: v in m ==> exists i :: 0 <= i < |ks| && VersionOf(ks[i]) == v)
  }

  lemma OneVersionMeans(ks: seq<KameletInfo>)
    ensures OneVersion(ks) <==> forall i, j :: 0 <= i < j < |ks| ==> VersionOf(ks[i]) == VersionOf(ks[j])
  {
    hide Annotation;
  }

  lemma OneVersionOneKey(m: map<string, nat>, ks: seq<KameletInfo>)
    requires KeysAreVersions(m, ks)
    ensures |m| <= 1 <==> OneVersion(ks)
  {
    OneVersionMeans(ks);
    hide VersionOf, OneVersion;
    SingletonKeys(m);
    if |m| > 1 {
      var v, w :| v in m && w in m && v != w;
      var i :| 0 <= i < |ks| && VersionOf(ks[i]) == v;
      var j :| 0 <= j < |ks| && VersionOf(ks[j]) == w;
      assert i < j || j < i;
    }
  }

  lemma VersionErrorsMeaning(ks: seq<KameletInfo>)
    ensures VersionErrors(ks) == [] <==> OneVersion(ks)
  {
    forall v
      ensures v in VersionCounts(ks) <==> exists i :: 0 <= i < |ks| && VersionOf(ks[i]) == v
    {
      VersionCountsMeaning(ks, v);
    }
    hide VersionCounts, VersionOf;
    OneVersionOneKey(VersionCounts(ks), ks);
  }

  lemma ConventionErrorsMeaning(ks: seq<KameletInfo>, c: Casing)
    requires StructureOkAll(ks, c)
    ensures ConventionErrors(ks) == [] <==> WellFormed(ks, c)
  {
    hide Each, AnnotationErrors, DescriptorErrors, UsedParamErrors, TemplateErrors, DependencyErrors, ConventionsOk,
      DuplicateErrors, VersionErrors, DistinctUpTo, OneVersion, StructureOkAll;
    EachEmpty(ks, AnnotationErrors, |ks|);
    EachEmpty(ks, DescriptorErrors, |ks|);
    EachEmpty(ks, UsedParamErrors, |ks|);
    EachEmpty(ks, TemplateErrors, |ks|);
    EachEmpty(ks, DependencyErrors, |ks|);
    PerKamelet(ks, c);
    DuplicateErrorsMeaning(ks, |ks|);
    VersionErrorsMeaning(ks);
  }

  lemma PerKamelet(ks: seq<KameletInfo>, c: Casing)
    requires StructureOkAll(ks, c)
    ensures forall i :: 0 <= i < |ks| ==> Definition(ks[i]).Map?
    ensures forall i :: 0 <= i < |ks| ==> (OwesNoConvention(ks[i]) <==> ConventionsOk(ks[i]))
  {
    forall i | 0 <= i < |ks|
      ensures Definition(ks[i]).Map? && (OwesNoConvention(ks[i]) <==> ConventionsOk(ks[i]))
    {
      assert StructureOk(ks[i], c);
      ConventionMeaning(ks[i]);
      hide OwesNoConvention, ConventionsOk;
    }
  }

  lemma NeverInEach(ks: seq<KameletInfo>, rule: KameletInfo -> seq<Error>, e: Error)
    requires forall i :: 0 <= i < |ks| ==> e !in rule(ks[i])
    ensures e !in Each(ks, rule, |ks|)
  {
    EachMember(ks, rule, |ks|, e);
  }

  lemma NoMissingDefinition(k: KameletInfo, name: string)
    requires HasDefinition(k)
    ensures NeverOwed(k, NoDefinition(name))
  {
    DescriptorErrorKinds(k.name, Properties(k), name);
    DependencyErrorKinds(k, name);
    UsedParamErrorKinds(k.name, ParamNames(Template(k)), Declared(k), name);
    hide AllDescriptorErrors, DependencyErrors, UndeclaredErrors, UnusedErrors, ParamNames, Declared, Template,
      Definition, Properties, Annotation, Contains, Label;
  }

  lemma DependencyErrorKinds(k: KameletInfo, name: string)
    ensures NoDefinition(name) !in DependencyErrors(k)
  {
    EachMember(Dependencies(k), d => When(!GoodDependency(d), BadDependency(k.name, d)), |Dependencies(k)|,
               NoDefinition(name));
  }

  lemma UsedParamErrorKinds(owner: string, used: set<string>, declared: set<string>, name: string)
    ensures NoDefinition(name) !in UndeclaredErrors(owner, used, declared)
    ensures NoDefinition(name) !in UnusedErrors(owner, used, declared)
  {
    var e := NoDefinition(name);
    EachMember(Sorted(used), p => When(p !in declared, Undeclared(p, owner)), |Sorted(used)|, e);
    EachMember(Sorted(declared), p => When(p !in used, Unused(p, owner)), |Sorted(declared)|, e);
  }

  /** Once the structural phase has nothing to report, no later check reports a missing
      definition. */
  lemma PhaseGate(ks: seq<KameletInfo>, c: Casing, name: string)
    requires StructuralErrors(ks, c) == []
    ensures NoDefinition(name) !in ConventionErrors(ks)
  {
    var e := NoDefinition(name);
    StructuralErrorsMeaning(ks, c);
    hide StructuralErrors, Definition, Each, AnnotationErrors, DescriptorErrors, UsedParamErrors, TemplateErrors,
      DependencyErrors, DuplicateErrors;
    NoneMissing(ks, c, name);
    NeverInEach(ks, AnnotationErrors, e);
    NeverInEach(ks, DescriptorErrors, e);
    NeverInEach(ks, UsedParamErrors, e);
    NeverInEach(ks, TemplateErrors, e);
    NeverInEach(ks, DependencyErrors, e);
  }

  lemma HasDefinitionOf(ks: seq<KameletInfo>, c: Casing, i: nat)
    requires StructureOkAll(ks, c) && i < |ks|
    ensures HasDefinition(ks[i])
  {
    assert StructureOk(ks[i], c);
    hide WellNamed, WellDescribedProperty;
  }

  lemma NoneMissing(ks: seq<KameletInfo>, c: Casing, name: string)
    requires StructureOkAll(ks, c)
    ensures NoDefinition(name) !in DuplicateErrors(ks, |ks|)
    ensures forall i :: 0 <= i < |ks| ==> NeverOwed(ks[i], NoDefinition(name))
  {
    hide StructureOkAll, NeverOwed, HasDefinition, DuplicateErrors;
    forall i | 0 <= i < |ks|
      ensures HasDefinition(ks[i]) && NeverOwed(ks[i], NoDefinition(name))
    {
      HasDefinitionOf(ks, c, i);
      NoMissingDefinition(ks[i], name);
    }
    DuplicateErrorKinds(ks, |ks|, name);
  }

  /** None of the later per-Kamelet checks can report this. */
  ghost predicate NeverOwed(k: KameletInfo, e: Error) {
    && e !in AnnotationErrors(k) && e !in DescriptorErrors(k) && e !in UsedParamErrors(k)
    && e !in TemplateErrors(k) && e !in DependencyErrors(k)
  }

  lemma DescriptorErrorKinds(owner: string, properties: seq<Entry>, name: string)
    ensures NoDefinition(name) !in AllDescriptorErrors(owner, properties)
  {
    var e := NoDefinition(name);
    EachMember(properties, p => PropertyDescriptorErrors(owner, p), |properties|, e);
    forall p: Entry
      ensures e !in PropertyDescriptorErrors(owner, p)
    {
      var ds := Texts(Lookup(p.value, "x-descriptors"));
      if e in DescriptorTwiceErrors(p.key, owner, ds) {
        RepeatsMember(ds, d => DescriptorTwice(p.key, owner, d), |ds|, e);
      }
    }
  }

  lemma {:induction false} DuplicateErrorKinds(ks: seq<KameletInfo>, n: nat, name: string)
    requires n <= |ks| && forall i :: 0 <= i < n ==> HasDefinition(ks[i])
    ensures NoDefinition(name) !in DuplicateErrors(ks, n)
  {
    hide HasDefinition, DuplicateErrorsOf;
    if n > 0 {
      DuplicateErrorKinds(ks, n - 1, name);
      DuplicateErrorOfKinds(ks, n - 1, name);
    }
  }

  lemma DuplicateErrorOfKinds(ks: seq<KameletInfo>, j: nat, name: string)
    requires j < |ks| && HasDefinition(ks[j])
    ensures NoDefinition(name) !in DuplicateErrorsOf(ks, j)
  {
    hide Definition, Title, Description, Earlier;
  }
}
