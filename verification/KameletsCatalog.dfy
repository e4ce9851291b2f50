/** Looking up a Kamelet of the catalog: the key it is stored under, and the headers it supports. */
module KameletsCatalog {
  import opened Options
  import opened Text
  import opened DeclaredHeaders
  import KameletDocuments
  import CatalogRules
  import CatalogTheorems

  datatype Metadata = Metadata(name: Option<string>, labels: Option<map<string, string>>)
  datatype Kamelet = Kamelet(metadata: Option<Metadata>, dataTypes: DataTypes)
  datatype Scheme = Scheme(name: string, scheme: string)

  /** What the catalog of components and the platform answer. */
  datatype Environment = Environment(
    schemes: seq<Scheme>,
    componentHeaders: string -> seq<EndpointHeader>,
    upper: char -> char,
    lower: char -> char)

  datatype Failure = NoMetadata | NoLabels | NoTypeLabel | NoName | NoPrefix
  datatype Supported = Supported(headers: seq<EndpointHeader>) | Failed(failure: Failure)

  const FILE_SUFFIX := ".kamelet.yaml"
  const DIR_LENGTH := 9

  // ----- the key of a Kamelet

  /** The name for a resource path, none when the path is too short to hold one. */
  function SanitizeFileName(path: string): Option<string> {
    var i := LastIndexOf(path, FILE_SUFFIX);
    var stem := if i > 0 then path[..i] else path;
    if |stem| < DIR_LENGTH then None else Some(stem[DIR_LENGTH..])
  }

  /** A resource of the directory is stored under its file name without the suffix. */
  lemma KeyOfResource(dir: string, name: string)
    requires |dir| == DIR_LENGTH
    ensures SanitizeFileName(dir + name + FILE_SUFFIX) == Some(name)
  {
    var path := dir + name + FILE_SUFFIX;
    LastIndexOfSuffix(path, FILE_SUFFIX);
    assert path[..|path| - |FILE_SUFFIX|] == dir + name;
  }

  /** What the validator demands of names makes the key of a Kamelet its own name. */
  lemma KeyIsName(dir: string, k: KameletDocuments.KameletInfo)
    requires |dir| == DIR_LENGTH && EndsWith(k.fileName, FILE_SUFFIX) && CatalogTheorems.WellNamed(k)
    ensures SanitizeFileName(dir + k.fileName) == Some(k.name)
  {
    var stem := k.fileName[..|k.fileName| - |FILE_SUFFIX|];
    assert k.fileName == stem + FILE_SUFFIX == stem + FILE_SUFFIX + "";
    CatalogTheorems.StemCutsSuffix(stem, "");
    assert k.name == stem + "" == stem;
    assert dir + k.fileName == dir + k.name + FILE_SUFFIX;
    KeyOfResource(dir, k.name);
  }

  // ----- the prefix of a Kamelet and its scheme

  function SameLetter(env: Environment, a: char, b: char): bool {
    a == b || env.upper(a) == env.upper(b) || env.lower(env.upper(a)) == env.lower(env.upper(b))
  }

  predicate EqualsIgnoreCase(env: Environment, a: string, b: string) {
    |a| == |b| && forall i :: 0 <= i < |a| ==> SameLetter(env, a[i], b[i])
  }

  function CamelType(env: Environment, tp: string): string {
    if EqualsIgnoreCase(env, tp, "sink") then "producer" else "consumer"
  }

  predicate Prefixed(name: string, prefix: string, rest: string) {
    name == prefix + "-" + rest && '-' !in rest
  }

  /** The scheme of a prefix, the first entry of a name deciding. */
  method EnumValue(schemes: seq<Scheme>, prefix: string) returns (scheme: Option<string>)
    ensures scheme == SchemeOf(schemes, prefix)
  {
    for i := 0 to |schemes|
      invariant SchemeOf(schemes, prefix) == SchemeOf(schemes[i..], prefix)
    {
      if schemes[i].name == prefix {
        return Some(schemes[i].scheme);
      }
      assert schemes[i..][1..] == schemes[i + 1..];
    }
    return None;
  }

  function SchemeOf(schemes: seq<Scheme>, prefix: string): Option<string> {
    if schemes == [] then None
    else if schemes[0].name == prefix then Some(schemes[0].scheme)
    else SchemeOf(schemes[1..], prefix)
  }

  lemma {:induction false} SchemeOfMeaning(schemes: seq<Scheme>, prefix: string)
    ensures match SchemeOf(schemes, prefix)
            case None => forall e :: e in schemes ==> e.name != prefix
            case Some(scheme) =>
              exists i ::
                && 0 <= i < |schemes| && schemes[i] == Scheme(prefix, scheme)
                && forall j :: 0 <= j < i ==> schemes[j].name != prefix
  {
    if schemes != [] && schemes[0].name != prefix {
      SchemeOfMeaning(schemes[1..], prefix);
      if SchemeOf(schemes[1..], prefix).Some? {
        var i :|
          && 0 <= i < |schemes[1..]| && schemes[1..][i] == Scheme(prefix, SchemeOf(schemes, prefix).value)
          && forall j :: 0 <= j < i ==> schemes[1..][j].name != prefix;
        assert schemes[i + 1].name == prefix;
        assert forall j :: 0 < j <= i ==> schemes[j] == schemes[1..][j - 1];
      }
    }
  }

  // ----- the headers of its component

  predicate Suits(env: Environment, h: EndpointHeader, camelType: string) {
    h.labelText.None? || h.labelText.value == "" || EqualsIgnoreCase(env, h.labelText.value, camelType)
  }

  function Suiting(env: Environment, hs: seq<EndpointHeader>, camelType: string): seq<EndpointHeader> {
    if hs == [] then []
    else
      var last := hs[|hs| - 1];
      Suiting(env, hs[..|hs| - 1], camelType) + if Suits(env, last, camelType) then [last] else []
  }

  ghost predicate Ascends(places: seq<nat>) {
    forall k, l :: 0 <= k < l < |places| ==> places[k] < places[l]
  }

  /** Exactly the suiting headers are kept, in their order. */
  lemma {:induction false} SuitingMeaning(env: Environment, hs: seq<EndpointHeader>, camelType: string)
    returns (places: seq<nat>)
    ensures Ascends(places) && |places| == |Suiting(env, hs, camelType)|
    ensures forall k :: 0 <= k < |places| ==>
              places[k] < |hs| && Suiting(env, hs, camelType)[k] == hs[places[k]]
    ensures forall i: nat :: i in places <==> i < |hs| && Suits(env, hs[i], camelType)
  {
    hide Suits;
    if hs == [] {
      places := [];
    } else {
      var n := |hs| - 1;
      places := SuitingMeaning(env, hs[..n], camelType);
      if Suits(env, hs[n], camelType) {
        places := places + [n];
      }
    }
  }

  method ComponentHeaders(env: Environment, hs: seq<EndpointHeader>, camelType: string)
    returns (suiting: seq<EndpointHeader>)
    ensures suiting == Suiting(env, hs, camelType)
  {
    suiting := [];
    for i := 0 to |hs|
      invariant suiting == Suiting(env, hs[..i], camelType)
    {
      assert hs[..i + 1][..i] == hs[..i];
      if Suits(env, hs[i], camelType) {
        suiting := suiting + [hs[i]];
      }
    }
    assert hs[..|hs|] == hs;
  }

  /** What is missing for the headers of the component. */
  function Missing(k: Kamelet): Option<Failure> {
    if k.metadata.None? then Some(NoMetadata)
    else if k.metadata.value.labels.None? then Some(NoLabels)
    else if KameletDocuments.TYPE_LABEL !in k.metadata.value.labels.value then Some(NoTypeLabel)
    else if k.metadata.value.name.None? then Some(NoName)
    else if '-' !in k.metadata.value.name.value then Some(NoPrefix)
    else None
  }

  /** The headers of the component that the Kamelet's prefix stands for. */
  ghost predicate FromComponent(env: Environment, k: Kamelet, hs: seq<EndpointHeader>)
    requires Missing(k).None?
  {
    exists prefix, rest ::
      && Prefixed(k.metadata.value.name.value, prefix, rest)
      && match SchemeOf(env.schemes, prefix)
         case None => hs == []
         case Some(scheme) =>
           hs == Suiting(
             env, env.componentHeaders(scheme),
             CamelType(env, k.metadata.value.labels.value[KameletDocuments.TYPE_LABEL]))
  }

  lemma LastDash(name: string)
    ensures '-' !in name <==> LastIndexOf(name, "-") < 0
    ensures var i := LastIndexOf(name, "-"); i >= 0 ==> Prefixed(name, name[..i], name[i + 1..])
  {
    var i := LastIndexOf(name, "-");
    forall j: nat | j < |name|
      ensures name[j] == '-' <==> OccursAt(name, "-", j)
    {
      assert name[j..j + 1] == [name[j]];
    }
    assert i >= 0 ==> name == name[..i] + "-" + name[i + 1..];
  }

  method GetKameletSupportedHeaders(models: map<string, Kamelet>, env: Environment, name: string)
    returns (r: Supported)
    ensures name !in models ==> r == Supported([])
    ensures name in models ==>
              var declared := Merged(Candidates(OrNone(models[name].dataTypes)));
              && (declared != [] ==> r == Supported(declared))
              && (declared == [] && Missing(models[name]).Some? ==> r == Failed(Missing(models[name]).value))
              && (declared == [] && Missing(models[name]).None? ==>
                    r.Supported? && FromComponent(env, models[name], r.headers))
  {
    hide Merged, Candidates, Suiting, SchemeOf, EqualsIgnoreCase, LastIndexOf;
    if name !in models {
      return Supported([]);
    }
    var k := models[name];
    var declared := GetDeclaredHeaders(k.dataTypes);
    if declared != [] {
      return Supported(declared);
    }
    if k.metadata.None? {
      return Failed(NoMetadata);
    }
    var metadata := k.metadata.value;
    if metadata.labels.None? {
      return Failed(NoLabels);
    }
    if KameletDocuments.TYPE_LABEL !in metadata.labels.value {
      return Failed(NoTypeLabel);
    }
    var camelType := CamelType(env, metadata.labels.value[KameletDocuments.TYPE_LABEL]);
    if metadata.name.None? {
      return Failed(NoName);
    }
    var kameletName := metadata.name.value;
    var lastIndex := LastIndexOf(kameletName, "-");
    LastDash(kameletName);
    if lastIndex < 0 {
      return Failed(NoPrefix);
    }
    var scheme := EnumValue(env.schemes, kameletName[..lastIndex]);
    var headers := [];
    if scheme.Some? {
      headers := ComponentHeaders(env, env.componentHeaders(scheme.value), camelType);
    }
    r := Supported(headers);
  }

  // ----- what the validator's name rules give the catalog

  /** The model that the catalog holds for a document. */
  predicate ModelOf(m: Kamelet, k: KameletDocuments.KameletInfo) {
    && m.metadata.Some? && m.metadata.value.name == Some(k.name) && m.metadata.value.labels.Some?
    && KameletDocuments.TYPE_LABEL in m.metadata.value.labels.value
    && m.metadata.value.labels.value[KameletDocuments.TYPE_LABEL] ==
       KameletDocuments.Label(k, KameletDocuments.TYPE_LABEL)
  }

  /** A name splits at its last dash in one way only. */
  lemma PrefixIsUnique(name: string, p: string, r: string, p': string, r': string)
    requires Prefixed(name, p, r) && Prefixed(name, p', r')
    ensures p == p' && r == r'
  {
    assert name[|p|] == '-' && name[|p'|] == '-';
    assert forall j :: |p| < j < |name| ==> name[j] == r[j - |p| - 1];
    assert forall j :: |p'| < j < |name| ==> name[j] == r'[j - |p'| - 1];
    assert p == name[..|p|] && p' == name[..|p'|];
    assert r == name[|p| + 1..] && r' == name[|p'| + 1..];
  }

  /** For a Kamelet that the validator accepts, the lookup always has what it needs: the name is
      the looked-up prefix, a dash, and the type; and a producer is wanted exactly for sinks. */
  lemma LookupIsTotalAndExact(k: KameletDocuments.KameletInfo, m: Kamelet, env: Environment)
    requires CatalogTheorems.WellNamed(k) && ModelOf(m, k)
    ensures Missing(m).None?
    ensures var tp := KameletDocuments.Label(k, KameletDocuments.TYPE_LABEL);
            && (exists prefix :: Prefixed(k.name, prefix, tp))
            && (forall prefix, rest :: Prefixed(k.name, prefix, rest) ==> rest == tp)
            && (CamelType(env, tp) == "producer" <==> tp == "sink")
  {
    var tp := KameletDocuments.Label(k, KameletDocuments.TYPE_LABEL);
    TypesHaveNoDash(tp);
    SuffixIsRest(k.name, tp);
    TypeDecides(env, tp);
    hide Prefixed, CamelType, EndsWith, KameletDocuments.Label;
    var prefix := k.name[..|k.name| - |tp| - 1];
    forall p, rest | Prefixed(k.name, p, rest)
      ensures rest == tp
    {
      PrefixIsUnique(k.name, p, rest, prefix, tp);
    }
  }

  lemma TypesHaveNoDash(tp: string)
    requires tp in CatalogRules.TYPES
    ensures '-' !in tp && (tp == "source" || tp == "sink" || tp == "action")
  {}

  lemma SuffixIsRest(name: string, tp: string)
    requires EndsWith(name, "-" + tp) && '-' !in tp
    ensures |tp| < |name| && '-' in name && Prefixed(name, name[..|name| - |tp| - 1], tp)
  {
    var prefix := name[..|name| - |tp| - 1];
    assert name == prefix + ("-" + tp) == prefix + "-" + tp;
    assert name[|prefix|] == '-';
  }

  lemma TypeDecides(env: Environment, tp: string)
    requires tp == "source" || tp == "sink" || tp == "action"
    ensures CamelType(env, tp) == "producer" <==> tp == "sink"
  {
    assert EqualsIgnoreCase(env, "sink", "sink");
  }
}
