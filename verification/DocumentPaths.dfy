/** Where in a document each accessor looks. */
module DocumentPaths {
  import opened KameletDocuments
  import opened CatalogRules

  /** The first entry of the key is this one. */
  ghost predicate FirstEntry(entries: seq<Entry>, key: string, i: int) {
    0 <= i < |entries| && entries[i].key == key && forall j :: 0 <= j < i ==> entries[j].key != key
  }

  ghost predicate HasKey(entries: seq<Entry>, key: string) {
    exists e :: e in entries && e.key == key
  }

  lemma {:induction false} GetMeaning(entries: seq<Entry>, key: string)
    ensures HasKey(entries, key) ==> exists i :: FirstEntry(entries, key, i) && entries[i].value == Get(entries, key)
    ensures !HasKey(entries, key) ==> Get(entries, key) == Null
  {
    if entries != [] {
      if entries[0].key == key {
        assert FirstEntry(entries, key, 0);
      } else {
        GetMeaning(entries[1..], key);
        if HasKey(entries, key) {
          var e :| e in entries && e.key == key;
          assert e in entries[1..];
          var i :| FirstEntry(entries[1..], key, i) && entries[1..][i].value == Get(entries[1..], key);
          assert forall j :: 0 < j < |entries| ==> entries[j] == entries[1..][j - 1];
          assert FirstEntry(entries, key, i + 1);
        }
      }
    }
  }

  /** The node at the end of a path of keys, null when the path leaves the maps of the document. */
  function At(n: Node, path: seq<string>): Node
    decreases |path|
  {
    if path == [] then n else if n.Map? then At(Get(n.entries, path[0]), path[1..]) else Null
  }

  ghost predicate IsMapOrNull(n: Node, v: Node) {
    n == if v.Map? then v else Null
  }

  /** The text is that of the value, empty for null. */
  ghost predicate Shows(text: string, v: Node) {
    text == if v.Null? then "" else ToString(v)
  }

  /** The texts are those of the items, none for anything but a list. */
  ghost predicate ShowsItems(texts: seq<string>, v: Node) {
    if v.List? then |texts| == |v.items| && forall i :: 0 <= i < |texts| ==> texts[i] == ToString(v.items[i])
    else texts == []
  }

  lemma AtOne(n: Node, a: string)
    ensures At(n, [a]) == Lookup(n, a)
  {
    assert [a][1..] == [];
  }

  lemma AtMore(n: Node, a: string, path: seq<string>)
    ensures At(n, [a] + path) == At(MapAt(n, a), path) || path == []
  {
    assert ([a] + path)[1..] == path;
  }

  lemma AtTwo(n: Node, a: string, b: string)
    ensures At(n, [a, b]) == Lookup(MapAt(n, a), b)
  {
    AtMore(n, a, [b]);
    AtOne(MapAt(n, a), b);
    assert [a] + [b] == [a, b];
  }

  lemma AtThree(n: Node, a: string, b: string, c: string)
    ensures At(n, [a, b, c]) == Lookup(MapAt(MapAt(n, a), b), c)
  {
    AtMore(n, a, [b, c]);
    AtTwo(MapAt(n, a), b, c);
    assert [a] + [b, c] == [a, b, c];
  }

  lemma MetadataPaths(k: KameletInfo, key: string)
    ensures Shows(Label(k, key), At(k.doc, ["metadata", "labels", key]))
    ensures Shows(Annotation(k, key), At(k.doc, ["metadata", "annotations", key]))
  {
    hide At, Lookup, MapAt;
    AtThree(k.doc, "metadata", "labels", key);
    AtThree(k.doc, "metadata", "annotations", key);
  }

  lemma SpecPaths(k: KameletInfo)
    ensures IsMapOrNull(Definition(k), At(k.doc, ["spec", "definition"]))
    ensures IsMapOrNull(Template(k), At(k.doc, ["spec", "template"]))
    ensures ShowsItems(Dependencies(k), At(k.doc, ["spec", "dependencies"]))
  {
    hide At, Lookup;
    AtTwo(k.doc, "spec", "definition");
    AtTwo(k.doc, "spec", "template");
    AtTwo(k.doc, "spec", "dependencies");
  }

  lemma DefinitionPaths(k: KameletInfo)
    ensures Shows(Title(k), At(k.doc, ["spec", "definition", "title"]))
    ensures Shows(Description(k), At(k.doc, ["spec", "definition", "description"]))
    ensures ShowsItems(Required(k), At(k.doc, ["spec", "definition", "required"]))
    ensures var p := At(k.doc, ["spec", "definition", "properties"]);
            Properties(k) == if p.Map? then p.entries else []
  {
    hide At, Lookup;
    AtThree(k.doc, "spec", "definition", "title");
    AtThree(k.doc, "spec", "definition", "description");
    AtThree(k.doc, "spec", "definition", "required");
    AtThree(k.doc, "spec", "definition", "properties");
  }

  lemma TemplatePaths(k: KameletInfo)
    ensures var b := At(k.doc, ["spec", "template", "beans"]);
            Beans(k) == if b.List? then b.items else []
  {
    hide At, Lookup;
    AtThree(k.doc, "spec", "template", "beans");
  }
}
