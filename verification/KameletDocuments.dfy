/** A parsed Kamelet file and the accessors through which the validator reads it. */
module KameletDocuments {
  /** A value of a parsed document. A scalar that is not a string carries its printed form. */
  datatype Node = Null | Str(s: string) | Scalar(text: string) | List(items: seq<Node>) | Map(entries: seq<Entry>)
  datatype Entry = Entry(key: string, value: Node)

  datatype KameletInfo = KameletInfo(name: string, fileName: string, path: string, doc: Node)

  const TYPE_LABEL := "camel.apache.org/kamelet.type"
  const ICON_ANNOTATION := "camel.apache.org/kamelet.icon"
  const VERSION_ANNOTATION := "camel.apache.org/catalog.version"
  const PROVIDER_ANNOTATION := "camel.apache.org/provider"

  /** String.valueOf. */
  function ToString(n: Node): string
    decreases n
  {
    match n
    case Null => "null"
    case Str(s) => s
    case Scalar(text) => text
    case List(items) => "[" + JoinItems(items) + "]"
    case Map(entries) => "{" + JoinEntries(entries) + "}"
  }

  function JoinItems(items: seq<Node>): string
    decreases items
  {
    if items == [] then ""
    else ToString(items[0]) + if |items| == 1 then "" else ", " + JoinItems(items[1..])
  }

  function JoinEntries(entries: seq<Entry>): string
    decreases entries
  {
    if entries == [] then ""
    else
      entries[0].key + "=" + ToString(entries[0].value) +
      if |entries| == 1 then "" else ", " + JoinEntries(entries[1..])
  }

  /** The value of a key, null when there is none. */
  function Get(entries: seq<Entry>, key: string): Node {
    if entries == [] then Null
    else if entries[0].key == key then entries[0].value else Get(entries[1..], key)
  }

  /** The value of a key of a node that may not be a map at all. */
  function Lookup(n: Node, key: string): Node {
    if n.Map? then Get(n.entries, key) else Null
  }

  function MapAt(parent: Node, key: string): Node {
    var v := Lookup(parent, key);
    if v.Map? then v else Null
  }

  /** The printed form, empty for null. */
  function TextOf(n: Node): string {
    if n.Null? then "" else ToString(n)
  }

  /** The printed items of a list; anything else has none. */
  function Texts(n: Node): (out: seq<string>)
    ensures n.List? ==> |out| == |n.items|
  {
    if n.List? then seq(|n.items|, i requires 0 <= i < |n.items| => ToString(n.items[i])) else []
  }

  function Metadata(k: KameletInfo): Node { MapAt(k.doc, "metadata") }
  function Spec(k: KameletInfo): Node { MapAt(k.doc, "spec") }
  function Definition(k: KameletInfo): Node { MapAt(Spec(k), "definition") }
  function Template(k: KameletInfo): Node { MapAt(Spec(k), "template") }

  function Properties(k: KameletInfo): seq<Entry> {
    var p := MapAt(Definition(k), "properties");
    if p.Map? then p.entries else []
  }

  function PropertyKeys(k: KameletInfo): set<string> {
    set e | e in Properties(k) :: e.key
  }

  function Label(k: KameletInfo, key: string): string { TextOf(Lookup(MapAt(Metadata(k), "labels"), key)) }
  function Annotation(k: KameletInfo, key: string): string { TextOf(Lookup(MapAt(Metadata(k), "annotations"), key)) }
  function Required(k: KameletInfo): seq<string> { Texts(Lookup(Definition(k), "required")) }
  function Dependencies(k: KameletInfo): seq<string> { Texts(Lookup(Spec(k), "dependencies")) }
  function Title(k: KameletInfo): string { TextOf(Lookup(Definition(k), "title")) }
  function Description(k: KameletInfo): string { TextOf(Lookup(Definition(k), "description")) }
}
