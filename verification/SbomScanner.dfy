/** The scanner's reading of a software bill of materials: which Kamelets pull in each artifact. */
module SbomScanner {
  import opened Options
  import opened Text
  import opened StringOrder
  import opened Sbom

  datatype Scanned = Scanned(coordinate: string, version: string, declaredBy: string, runtimeVersioned: bool)

  /** A parsed document, in which any key may be missing. */
  datatype Item = Item(
    ref: Option<string>, group: Option<string>, name: Option<string>, version: Option<string>,
    purl: Option<string>, properties: seq<Property>)
  datatype Entry = Entry(ref: Option<string>, dependsOn: seq<string>)
  datatype Parsed = Parsed(root: Component, components: seq<Item>, dependencies: seq<Entry>)

  /** Reading stops at the first key that is missing. */
  datatype ScanInput = Components(list: seq<Scanned>) | MissingKey(key: string)

  function OrEmpty(o: Option<string>): string {
    if o.Some? then o.value else ""
  }

  // ----- what must not be missing

  /** The key that the list of Kamelet names misses first. */
  function MissingInNames(items: seq<Item>, n: nat): Option<string>
    requires n <= |items|
  {
    if n == 0 then None
    else
      var before, c := MissingInNames(items, n - 1), items[n - 1];
      if before.Some? then before
      else if c.ref.None? then Some("bom-ref")
      else if IsKameletRef(c.ref.value) && c.name.None? then Some("name")
      else None
  }

  function MissingOf(c: Item): Option<string> {
    if IsKameletRef(OrEmpty(c.ref)) then None
    else if c.group.None? then Some("group")
    else if c.name.None? then Some("name")
    else if c.version.None? then Some("version")
    else None
  }

  /** The key that the list of artifacts misses first. */
  function MissingInArtifacts(items: seq<Item>, n: nat): Option<string>
    requires n <= |items|
  {
    if n == 0 then None
    else
      var before := MissingInArtifacts(items, n - 1);
      if before.Some? then before else MissingOf(items[n - 1])
  }

  /** Every component has a ref, a Kamelet a name, and an artifact a group, a name and a version. */
  predicate Complete(items: seq<Item>) {
    forall i :: 0 <= i < |items| ==>
      && items[i].ref.Some? && items[i].name.Some?
      && (!IsKameletRef(items[i].ref.value) ==> items[i].group.Some? && items[i].version.Some?)
  }

  lemma {:induction false} NothingMissing(items: seq<Item>, n: nat)
    requires n <= |items|
    ensures MissingInNames(items, n).None? && MissingInArtifacts(items, n).None? <==> Complete(items[..n])
  {
    hide IsKameletRef;
    if n > 0 {
      NothingMissing(items, n - 1);
      assert items[..n] == items[..n - 1] + [items[n - 1]];
    }
  }

  lemma {:induction false} MissingStays(items: seq<Item>, n: nat, m: nat)
    requires n <= m <= |items|
    ensures MissingInNames(items, n).Some? ==> MissingInNames(items, m) == MissingInNames(items, n)
    ensures MissingInArtifacts(items, n).Some? ==> MissingInArtifacts(items, m) == MissingInArtifacts(items, n)
  {
    if n < m {
      MissingStays(items, n, m - 1);
    }
  }

  // ----- the document as it is read

  function ComponentOf(c: Item): Component {
    Component(OrEmpty(c.ref), c.group, OrEmpty(c.name), OrEmpty(c.version), c.purl, c.properties)
  }

  function DependencyOf(e: Entry): Dependency {
    Dependency(OrEmpty(e.ref), e.dependsOn)
  }

  function ComponentsOf(items: seq<Item>): (cs: seq<Component>)
    ensures |cs| == |items|
  {
    seq(|items|, i requires 0 <= i < |items| => ComponentOf(items[i]))
  }

  function DependenciesOf(entries: seq<Entry>): seq<Dependency> {
    seq(|entries|, i requires 0 <= i < |entries| => DependencyOf(entries[i]))
  }

  /** The document with what is missing left empty. */
  function View(doc: Parsed): Bom {
    Bom(doc.root, ComponentsOf(doc.components), DependenciesOf(doc.dependencies))
  }

  predicate IsKameletRef(ref: string) {
    StartsWith(ref, KAMELET_REF_PREFIX)
  }

  /** The names of the Kamelets, the last component of a ref deciding. */
  function KameletNames(components: seq<Component>): map<string, string> {
    if components == [] then map[]
    else
      var last := components[|components| - 1];
      var names := KameletNames(components[..|components| - 1]);
      if IsKameletRef(last.ref) then names[last.ref := last.name] else names
  }

  /** The Kamelet an entry of the graph is counted for, empty when for none. */
  function Attributed(names: map<string, string>, ref: string): string {
    if ref in names then names[ref] else ""
  }

  function Count(ref: string, refs: seq<string>): nat {
    if refs == [] then 0
    else Count(ref, refs[..|refs| - 1]) + if refs[|refs| - 1] == ref then 1 else 0
  }

  function Times(name: string, n: nat): seq<string> {
    seq(n, _ => name)
  }

  /** The Kamelets that reach a ref, in the order of the graph's entries, one for every edge. */
  function Declarers(names: map<string, string>, entries: seq<Dependency>, ref: string): seq<string> {
    if entries == [] then []
    else
      var last := entries[|entries| - 1];
      var name := Attributed(names, last.ref);
      Declarers(names, entries[..|entries| - 1], ref)
      + if name == "" then [] else Times(name, Count(ref, last.dependsOn))
  }

  /** The value of a property, the last one of a name deciding. */
  function PropertyValue(properties: seq<Property>, name: string): Option<string> {
    if properties == [] then None
    else
      var last := properties[|properties| - 1];
      if last.name == name then Some(last.value) else PropertyValue(properties[..|properties| - 1], name)
  }

  function Join(sep: string, parts: seq<string>): string {
    if parts == [] then ""
    else if |parts| == 1 then parts[0]
    else parts[0] + sep + Join(sep, parts[1..])
  }

  function Scan(c: Component, declarers: seq<string>): Scanned {
    Scanned(
      OrEmpty(c.group) + ":" + c.name, c.version, Join(",", SortList(declarers)),
      PropertyValue(c.properties, VERSIONED_BY) == Some(RUNTIME))
  }

  function ScanOne(bom: Bom, c: Component): Scanned {
    Scan(c, Declarers(KameletNames(bom.components), bom.dependencies, c.ref))
  }

  /** The artifacts among the first n components. */
  function ScanUpTo(bom: Bom, n: nat): seq<Scanned>
    requires n <= |bom.components|
  {
    if n == 0 then []
    else
      var before, c := ScanUpTo(bom, n - 1), bom.components[n - 1];
      if IsKameletRef(c.ref) then before else before + [ScanOne(bom, c)]
  }

  function ScanDocument(doc: Parsed): ScanInput {
    var n := |doc.components|;
    var inNames, inArtifacts := MissingInNames(doc.components, n), MissingInArtifacts(doc.components, n);
    if inNames.Some? then MissingKey(inNames.value)
    else if inArtifacts.Some? then MissingKey(inArtifacts.value)
    else Components(ScanUpTo(View(doc), n))
  }

  /** A document is read exactly when no key that is needed is missing. */
  lemma ReadWhenComplete(doc: Parsed)
    ensures ScanDocument(doc).Components? <==> Complete(doc.components)
  {
    NothingMissing(doc.components, |doc.components|);
    assert doc.components[..|doc.components|] == doc.components;
  }

  function Listed(declaredBy: map<string, seq<string>>, ref: string): seq<string> {
    if ref in declaredBy then declaredBy[ref] else []
  }

  /** What the map lists after the given entries and some edges of one more. */
  ghost predicate DeclaredSoFar(
      declaredBy: map<string, seq<string>>, names: map<string, string>, entries: seq<Dependency>,
      name: string, refs: seq<string>)
  {
    forall ref :: Listed(declaredBy, ref) == Declarers(names, entries, ref) + Times(name, Count(ref, refs))
  }

  function Append(declaredBy: map<string, seq<string>>, ref: string, name: string): map<string, seq<string>> {
    declaredBy[ref := Listed(declaredBy, ref) + [name]]
  }

  lemma CountOneMore(r: string, refs: seq<string>, ref: string, name: string)
    ensures Times(name, Count(r, refs + [ref])) == Times(name, Count(r, refs)) + if r == ref then [name] else []
  {
    assert (refs + [ref])[..|refs|] == refs;
  }

  lemma OneMoreEdge(
      declaredBy: map<string, seq<string>>, names: map<string, string>, entries: seq<Dependency>,
      name: string, refs: seq<string>, ref: string)
    requires DeclaredSoFar(declaredBy, names, entries, name, refs)
    ensures DeclaredSoFar(Append(declaredBy, ref, name), names, entries, name, refs + [ref])
  {
    hide Declarers, Times, Count;
    forall r
      ensures Listed(Append(declaredBy, ref, name), r) ==
              Declarers(names, entries, r) + Times(name, Count(r, refs + [ref]))
    {
      CountOneMore(r, refs, ref, name);
      assert Listed(Append(declaredBy, ref, name), r) == Listed(declaredBy, r) + if r == ref then [name] else [];
    }
  }

  lemma NoTimes(name: string, ref: string)
    ensures Times(name, Count(ref, [])) == []
  {}

  lemma StartOfEntry(
      declaredBy: map<string, seq<string>>, names: map<string, string>, entries: seq<Dependency>, name: string)
    requires DeclaredSoFar(declaredBy, names, entries, "", [])
    ensures DeclaredSoFar(declaredBy, names, entries, name, [])
  {
    hide Declarers, Times, Count, Listed;
    forall ref
      ensures Listed(declaredBy, ref) == Declarers(names, entries, ref) + Times(name, Count(ref, []))
    {
      NoTimes("", ref);
      NoTimes(name, ref);
    }
  }

  lemma DeclarersOneMore(names: map<string, string>, entries: seq<Dependency>, last: Dependency, ref: string)
    ensures var name := Attributed(names, last.ref);
            Declarers(names, entries + [last], ref) ==
            Declarers(names, entries, ref) + if name == "" then [] else Times(name, Count(ref, last.dependsOn))
  {
    hide Attributed, Times, Count;
    assert (entries + [last])[..|entries|] == entries;
  }

  lemma EndOfEntry(
      declaredBy: map<string, seq<string>>, names: map<string, string>, entries: seq<Dependency>, last: Dependency)
    requires var name := Attributed(names, last.ref);
             DeclaredSoFar(declaredBy, names, entries, name, if name == "" then [] else last.dependsOn)
    ensures DeclaredSoFar(declaredBy, names, entries + [last], "", [])
  {
    hide Declarers, Times, Count, Listed, Attributed;
    forall ref
      ensures Listed(declaredBy, ref) == Declarers(names, entries + [last], ref) + Times("", Count(ref, []))
    {
      NoTimes("", ref);
      DeclarersOneMore(names, entries, last, ref);
    }
  }

  /** Counts the edges of one entry for a Kamelet. */
  method ReverseEntry(
      declaredBy0: map<string, seq<string>>, name: string, dependsOn: seq<string>,
      ghost names: map<string, string>, ghost before: seq<Dependency>)
    returns (declaredBy: map<string, seq<string>>)
    requires DeclaredSoFar(declaredBy0, names, before, "", [])
    ensures DeclaredSoFar(declaredBy, names, before, name, dependsOn)
  {
    hide DeclaredSoFar, Append;
    declaredBy := declaredBy0;
    StartOfEntry(declaredBy, names, before, name);
    assert dependsOn[..0] == [];
    var j := 0;
    while j < |dependsOn|
      invariant 0 <= j <= |dependsOn|
      invariant DeclaredSoFar(declaredBy, names, before, name, dependsOn[..j])
    {
      OneMoreEdge(declaredBy, names, before, name, dependsOn[..j], dependsOn[j]);
      assert dependsOn[..j + 1] == dependsOn[..j] + [dependsOn[j]];
      declaredBy := Append(declaredBy, dependsOn[j], name);
      j := j + 1;
    }
    assert dependsOn[..j] == dependsOn;
  }

  lemma AttributedEntry(names: map<string, string>, e: Entry)
    requires "" !in names
    ensures DependencyOf(e).dependsOn == e.dependsOn
    ensures Attributed(names, DependencyOf(e).ref) == if e.ref.Some? then Attributed(names, e.ref.value) else ""
  {}

  lemma NothingDeclared(names: map<string, string>)
    ensures DeclaredSoFar(map[], names, DependenciesOf([]), "", [])
  {
    forall ref
      ensures Listed(map[], ref) == Declarers(names, DependenciesOf([]), ref) + Times("", Count(ref, []))
    {
      NoTimes("", ref);
    }
  }

  lemma DependenciesOneMore(entries: seq<Entry>, i: nat)
    requires i < |entries|
    ensures DependenciesOf(entries[..i + 1]) == DependenciesOf(entries[..i]) + [DependencyOf(entries[i])]
  {
    hide DependencyOf;
  }

  /** The reverse of the graph. An entry without a ref counts for nobody. */
  method ReverseGraph(names: map<string, string>, entries: seq<Entry>) returns (declaredBy: map<string, seq<string>>)
    requires "" !in names
    ensures DeclaredSoFar(declaredBy, names, DependenciesOf(entries), "", [])
  {
    hide DeclaredSoFar, DependenciesOf, DependencyOf, Attributed;
    declaredBy := map[];
    NothingDeclared(names);
    assert entries[..0] == [];
    var i := 0;
    while i < |entries|
      invariant 0 <= i <= |entries|
      invariant DeclaredSoFar(declaredBy, names, DependenciesOf(entries[..i]), "", [])
    {
      var entry := entries[i];
      ghost var done := DependenciesOf(entries[..i]);
      AttributedEntry(names, entry);
      DependenciesOneMore(entries, i);
      var name := if entry.ref.Some? then Attributed(names, entry.ref.value) else "";
      if name != "" {
        declaredBy := ReverseEntry(declaredBy, name, entry.dependsOn, names, done);
      }
      EndOfEntry(declaredBy, names, done, DependencyOf(entry));
      i := i + 1;
    }
    assert entries[..i] == entries;
  }

  /** The names of the Kamelets, or the key that is missing. */
  method ReadNames(items: seq<Item>) returns (names: map<string, string>, missing: Option<string>)
    ensures missing == MissingInNames(items, |items|)
    ensures missing.None? ==> names == KameletNames(ComponentsOf(items))
  {
    hide IsKameletRef;
    names, missing := map[], None;
    var i := 0;
    while i < |items|
      invariant 0 <= i <= |items|
      invariant MissingInNames(items, i).None? && names == KameletNames(ComponentsOf(items[..i]))
    {
      var c := items[i];
      var before, after := ComponentsOf(items[..i]), ComponentsOf(items[..i + 1]);
      assert after[..i] == before && after[i] == ComponentOf(c);
      MissingStays(items, i + 1, |items|);
      if c.ref.None? {
        return names, Some("bom-ref");
      }
      if IsKameletRef(c.ref.value) {
        if c.name.None? {
          return names, Some("name");
        }
        names := names[c.ref.value := c.name.value];
      }
      i := i + 1;
    }
    assert items[..i] == items;
  }

  lemma {:induction false} NoEmptyName(cs: seq<Component>)
    ensures "" !in KameletNames(cs)
  {
    if cs != [] {
      NoEmptyName(cs[..|cs| - 1]);
    }
  }

  /** The components that are not Kamelets, or the key that is missing in one. */
  method ReadArtifacts(doc: Parsed, declaredBy: map<string, seq<string>>, ghost names: map<string, string>)
    returns (list: seq<Scanned>, missing: Option<string>)
    requires names == KameletNames(ComponentsOf(doc.components))
    requires DeclaredSoFar(declaredBy, names, DependenciesOf(doc.dependencies), "", [])
    ensures missing == MissingInArtifacts(doc.components, |doc.components|)
    ensures missing.None? ==> list == ScanUpTo(View(doc), |doc.components|)
  {
    hide IsKameletRef, Scan, KameletNames, Declarers, MissingOf, ScanUpTo, ComponentOf, DeclaredSoFar, Listed,
      ComponentsOf, DependenciesOf;
    list, missing := [], None;
    ScanNone(View(doc));
    var items := doc.components;
    var i := 0;
    while i < |items|
      invariant 0 <= i <= |items|
      invariant missing.None? && MissingInArtifacts(items, i).None? && list == ScanUpTo(View(doc), i)
    {
      MissingStays(items, i + 1, |items|);
      missing := MissingOf(items[i]);
      if missing.Some? {
        return;
      }
      var ref := OrEmpty(items[i].ref);
      ScanOneMore(doc, names, i);
      DeclarersRead(declaredBy, names, DependenciesOf(doc.dependencies), ref);
      if !IsKameletRef(ref) {
        list := list + [Scan(ComponentOf(items[i]), Listed(declaredBy, ref))];
      }
      i := i + 1;
    }
  }

  /** The artifacts to scan, each with the Kamelets that reach it in the graph. */
  method ReadComponents(doc: Parsed) returns (input: ScanInput)
    ensures input == ScanDocument(doc)
  {
    hide IsKameletRef, Scan, KameletNames, Declarers, MissingInNames, MissingInArtifacts, ScanUpTo, DeclaredSoFar,
      ComponentsOf, DependenciesOf;
    var names, missing := ReadNames(doc.components);
    if missing.Some? {
      return MissingKey(missing.value);
    }
    NoEmptyName(ComponentsOf(doc.components));
    var declaredBy := ReverseGraph(names, doc.dependencies);
    var list;
    list, missing := ReadArtifacts(doc, declaredBy, names);
    input := if missing.Some? then MissingKey(missing.value) else Components(list);
  }

  lemma ScanNone(bom: Bom)
    ensures ScanUpTo(bom, 0) == []
  {}

  lemma ScanOneMore(doc: Parsed, names: map<string, string>, i: nat)
    requires i < |doc.components| && names == KameletNames(ComponentsOf(doc.components))
    ensures var c := doc.components[i];
            ScanUpTo(View(doc), i + 1) ==
            if IsKameletRef(OrEmpty(c.ref)) then ScanUpTo(View(doc), i)
            else ScanUpTo(View(doc), i)
                 + [Scan(ComponentOf(c), Declarers(names, DependenciesOf(doc.dependencies), OrEmpty(c.ref)))]
  {
    hide IsKameletRef, Scan, KameletNames, Declarers;
  }

  lemma DeclarersRead(
      declaredBy: map<string, seq<string>>, names: map<string, string>, entries: seq<Dependency>, ref: string)
    requires DeclaredSoFar(declaredBy, names, entries, "", [])
    ensures Listed(declaredBy, ref) == Declarers(names, entries, ref)
  {
    hide Declarers, Listed;
    NoTimes("", ref);
  }

  // ----- a written document

  function ItemOf(c: Component): Item {
    Item(Some(c.ref), c.group, Some(c.name), Some(c.version), c.purl, c.properties)
  }

  /** What the parser makes of a written document: every key the writer puts is there. */
  function Reparsed(bom: Bom): Parsed {
    Parsed(
      bom.root,
      seq(|bom.components|, i requires 0 <= i < |bom.components| => ItemOf(bom.components[i])),
      seq(|bom.dependencies|, i requires 0 <= i < |bom.dependencies| =>
        Entry(Some(bom.dependencies[i].ref), bom.dependencies[i].dependsOn)))
  }

  lemma ViewOfReparsed(bom: Bom)
    ensures View(Reparsed(bom)) == bom
  {
    var v := View(Reparsed(bom));
    assert forall i :: 0 <= i < |bom.components| ==> v.components[i] == bom.components[i];
    assert v.components == bom.components;
    assert forall i :: 0 <= i < |bom.dependencies| ==> v.dependencies[i] == bom.dependencies[i];
    assert v.dependencies == bom.dependencies;
  }

  lemma ReparsedIsComplete(bom: Bom)
    ensures Complete(Reparsed(bom).components) <==>
            forall i :: 0 <= i < |bom.components| && !IsKameletRef(bom.components[i].ref) ==>
              bom.components[i].group.Some?
  {
    hide IsKameletRef;
    var items := Reparsed(bom).components;
    assert forall i :: 0 <= i < |items| ==> items[i] == ItemOf(bom.components[i]);
  }
}
