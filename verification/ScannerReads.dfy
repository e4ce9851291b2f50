/** What the scanner takes from any document, written by this catalog or not. */
module ScannerReads {
  import opened Options
  import opened Text
  import opened StringOrder
  import opened Sbom
  import opened SbomScanner

  // ----- the key that is reported missing

  predicate IsKamelet(c: Item) {
    c.ref.Some? && "kamelet:" <= c.ref.value
  }

  /** Every component needs a ref, and a Kamelet a name. */
  predicate NameFound(c: Item) {
    c.ref.Some? && (IsKamelet(c) ==> c.name.Some?)
  }

  predicate NameMisses(c: Item, key: string) {
    if c.ref == None then key == "bom-ref" else IsKamelet(c) && c.name == None && key == "name"
  }

  /** What is no Kamelet needs a group, a name and a version, asked for in this order. */
  predicate ArtifactFound(c: Item) {
    IsKamelet(c) || (c.group.Some? && c.name.Some? && c.version.Some?)
  }

  predicate ArtifactMisses(c: Item, key: string) {
    && !IsKamelet(c)
    && if c.group == None then key == "group" else if c.name == None then key == "name"
       else c.version == None && key == "version"
  }

  /** The first pass reports the first component that lacks something. */
  lemma {:induction false} NamesPass(items: seq<Item>, n: nat)
    requires n <= |items|
    ensures match MissingInNames(items, n)
            case None => forall i :: 0 <= i < n ==> NameFound(items[i])
            case Some(key) =>
              exists i :: 0 <= i < n && NameMisses(items[i], key) && forall j :: 0 <= j < i ==> NameFound(items[j])
  {
    if n > 0 {
      NamesPass(items, n - 1);
      assert MissingInNames(items, n - 1).None? && !NameFound(items[n - 1]) ==>
          NameMisses(items[n - 1], MissingInNames(items, n).value);
      hide IsKamelet;
    }
  }

  /** So does the second pass. */
  lemma {:induction false} ArtifactsPass(items: seq<Item>, n: nat)
    requires n <= |items|
    ensures match MissingInArtifacts(items, n)
            case None => forall i :: 0 <= i < n ==> ArtifactFound(items[i])
            case Some(key) =>
              exists i ::
                0 <= i < n && ArtifactMisses(items[i], key) && forall j :: 0 <= j < i ==> ArtifactFound(items[j])
  {
    if n > 0 {
      ArtifactsPass(items, n - 1);
      assert MissingInArtifacts(items, n - 1).None? && !ArtifactFound(items[n - 1]) ==>
          ArtifactMisses(items[n - 1], MissingInArtifacts(items, n).value);
      hide IsKamelet;
    }
  }

  /** The first pass comes first. */
  lemma PassesInOrder(doc: Parsed)
    ensures var n := |doc.components|;
            match ScanDocument(doc)
            case MissingKey(key) =>
              || MissingInNames(doc.components, n) == Some(key)
              || (MissingInNames(doc.components, n) == None && MissingInArtifacts(doc.components, n) == Some(key))
            case Components(_) =>
              MissingInNames(doc.components, n) == None && MissingInArtifacts(doc.components, n) == None
  {}

  // ----- the properties and names that count

  ghost predicate LastNamed(properties: seq<Property>, name: string, i: int) {
    && 0 <= i < |properties| && properties[i].name == name
    && forall j :: i < j < |properties| ==> properties[j].name != name
  }

  ghost predicate LastWithRef(cs: seq<Component>, ref: string, i: int) {
    0 <= i < |cs| && cs[i].ref == ref && forall j :: i < j < |cs| ==> cs[j].ref != ref
  }

  /** The last property of a name decides. */
  lemma {:induction false} LastPropertyCounts(properties: seq<Property>, name: string)
    ensures match PropertyValue(properties, name)
            case None => forall i :: 0 <= i < |properties| ==> properties[i].name != name
            case Some(v) => exists i :: LastNamed(properties, name, i) && properties[i].value == v
  {
    if properties != [] {
      var n := |properties| - 1;
      if properties[n].name == name {
        assert LastNamed(properties, name, n);
      } else {
        LastPropertyCounts(properties[..n], name);
        if PropertyValue(properties[..n], name).Some? {
          var i :| LastNamed(properties[..n], name, i)
                   && properties[i].value == PropertyValue(properties[..n], name).value;
          assert LastNamed(properties, name, i);
        }
      }
    }
  }

  /** The last Kamelet of a ref gives its name. */
  lemma {:induction false} LastNameCounts(cs: seq<Component>, ref: string)
    ensures ref in KameletNames(cs) <==> "kamelet:" <= ref && exists c :: c in cs && c.ref == ref
    ensures ref in KameletNames(cs) ==>
              exists i :: LastWithRef(cs, ref, i) && cs[i].name == KameletNames(cs)[ref]
  {
    if cs != [] {
      var n := |cs| - 1;
      LastNameCounts(cs[..n], ref);
      assert cs == cs[..n] + [cs[n]];
      if cs[n].ref == ref {
        assert LastWithRef(cs, ref, n);
      } else if ref in KameletNames(cs[..n]) {
        var i :| LastWithRef(cs[..n], ref, i) && cs[i].name == KameletNames(cs[..n])[ref];
        assert LastWithRef(cs, ref, i);
      }
    }
  }

  // ----- who reaches an artifact

  lemma {:induction false} CountIsMultiplicity(ref: string, refs: seq<string>)
    ensures Count(ref, refs) == multiset(refs)[ref]
  {
    if refs != [] {
      var n := |refs| - 1;
      CountIsMultiplicity(ref, refs[..n]);
      assert refs == refs[..n] + [refs[n]];
    }
  }

  lemma OneMore(names: map<string, string>, last: Dependency, ref: string)
    returns (more: seq<string>)
    ensures forall before :: Declarers(names, before + [last], ref) == Declarers(names, before, ref) + more
  {
    hide Declarers, Count, Times, Attributed;
    var name := Attributed(names, last.ref);
    more := if name == "" then [] else Times(name, Count(ref, last.dependsOn));
    forall before
      ensures Declarers(names, before + [last], ref) == Declarers(names, before, ref) + more
    {
      DeclarersOneMore(names, before, last, ref);
    }
  }

  lemma {:induction false} DeclarersConcat(
      names: map<string, string>, a: seq<Dependency>, b: seq<Dependency>, ref: string)
    ensures Declarers(names, a + b, ref) == Declarers(names, a, ref) + Declarers(names, b, ref)
  {
    hide Declarers;
    if b == [] {
      assert a + b == a;
      NoDeclarers(names, ref);
    } else {
      var n := |b| - 1;
      DeclarersConcat(names, a, b[..n], ref);
      var more := OneMore(names, b[n], ref);
      assert a + b == (a + b[..n]) + [b[n]] && b == b[..n] + [b[n]];
    }
  }

  lemma NoDeclarers(names: map<string, string>, ref: string)
    ensures Declarers(names, [], ref) == []
  {}

  /** An entry of a named Kamelet counts once for every edge to the artifact, any other entry not at
      all, and the entries follow each other. */
  lemma DeclarersMeaning(
      names: map<string, string>, a: seq<Dependency>, b: seq<Dependency>, e: Dependency, ref: string)
    ensures Declarers(names, a + b, ref) == Declarers(names, a, ref) + Declarers(names, b, ref)
    ensures Declarers(names, [], ref) == []
    ensures e.ref !in names || names[e.ref] == "" ==> Declarers(names, [e], ref) == []
    ensures e.ref in names && names[e.ref] != "" ==>
              && |Declarers(names, [e], ref)| == multiset(e.dependsOn)[ref]
              && forall i :: 0 <= i < |Declarers(names, [e], ref)| ==> Declarers(names, [e], ref)[i] == names[e.ref]
  {
    DeclarersConcat(names, a, b, ref);
    CountIsMultiplicity(ref, e.dependsOn);
    assert [e][..0] == [];
    hide Count;
    NoDeclarers(names, ref);
  }

  // ----- what is scanned

  lemma {:induction false} JoinConcat(sep: string, a: seq<string>, b: seq<string>)
    ensures a != [] && b != [] ==> Join(sep, a + b) == Join(sep, a) + sep + Join(sep, b)
  {
    if a != [] && b != [] {
      assert (a + b)[1..] == a[1..] + b;
      if |a| == 1 {
        assert a[1..] + b == b;
      } else {
        JoinConcat(sep, a[1..], b);
        assert Join(sep, a) == a[0] + sep + Join(sep, a[1..]);
        JoinAssociates(a[0], sep, Join(sep, a[1..]), Join(sep, b));
      }
    }
  }

  lemma JoinAssociates(first: string, sep: string, x: string, y: string)
    ensures first + sep + (x + sep + y) == (first + sep + x) + sep + y
  {}

  /** The coordinate, the version, the sorted names with commas between them, and the mark. */
  lemma ScanMeaning(c: Component, declarers: seq<string>, sorted: seq<string>)
    requires Ascending(sorted) && multiset(sorted) == multiset(declarers)
    ensures var s := Scan(c, declarers);
            && s.coordinate == (if c.group.Some? then c.group.value else "") + ":" + c.name
            && s.version == c.version
            && s.declaredBy == Join(",", sorted)
            && (s.runtimeVersioned <==> PropertyValue(c.properties, "camel.apache.org/versioned-by") == Some("runtime"))
  {
    SortListSorts(declarers);
    SortedListIsUnique(SortList(declarers), sorted);
  }

  lemma FirstIsLeast(l: seq<string>, x: string)
    requires Ascending(l) && x in l
    ensures Le(l[0], x)
  {
    LeReflexive(x);
    hide Le;
  }

  lemma SameFirst(l: seq<string>, m: seq<string>)
    requires Ascending(l) && Ascending(m) && multiset(l) == multiset(m) && l != []
    ensures m != [] && l[0] == m[0]
  {
    assert l[0] in multiset(m);
    assert m[0] in multiset(l);
    FirstIsLeast(l, m[0]);
    FirstIsLeast(m, l[0]);
    LeAntisymmetric(l[0], m[0]);
    hide Le;
  }

  lemma RestOf(l: seq<string>)
    requires l != []
    ensures multiset(l[1..]) == multiset(l) - multiset{l[0]}
  {
    assert l == [l[0]] + l[1..];
  }

  /** Two sorted lists of the same strings are the same. */
  lemma {:induction false} SortedListIsUnique(l: seq<string>, m: seq<string>)
    requires Ascending(l) && Ascending(m) && multiset(l) == multiset(m)
    ensures l == m
  {
    if l == [] {
      assert |m| == |multiset(m)| == 0;
    } else {
      SameFirst(l, m);
      RestOf(l);
      RestOf(m);
      hide Le;
      SortedListIsUnique(l[1..], m[1..]);
      assert l == [l[0]] + l[1..] && m == [m[0]] + m[1..];
    }
  }
}
