/** What a lookup in the catalog decides: the wanted side, the headers that suit it, the first
    thing that is missing, and the keys of all resource paths. */
module LookupMeaning {
  import opened Options
  import opened Text
  import opened DeclaredHeaders
  import opened KameletsCatalog

  // ----- letters

  /** The casing of ASCII letters. */
  predicate AsciiCasing(env: Environment) {
    && (forall c :: env.upper(c) == if 'a' <= c <= 'z' then (c as int - 32) as char else c)
    && (forall c :: env.lower(c) == if 'A' <= c <= 'Z' then (c as int + 32) as char else c)
  }

  predicate LetterPair(a: char, b: char) {
    ('A' <= a <= 'Z' && b as int == a as int + 32) || ('A' <= b <= 'Z' && a as int == b as int + 32)
  }

  predicate SameButCase(a: string, b: string) {
    |a| == |b| && forall i :: 0 <= i < |a| ==> a[i] == b[i] || LetterPair(a[i], b[i])
  }

  lemma SameLetterMeaning(env: Environment, a: char, b: char)
    requires AsciiCasing(env)
    ensures SameLetter(env, a, b) <==> a == b || LetterPair(a, b)
  {}

  lemma IgnoringCase(env: Environment, a: string, b: string)
    ensures a == b ==> EqualsIgnoreCase(env, a, b)
    ensures |a| != |b| ==> !EqualsIgnoreCase(env, a, b)
    ensures AsciiCasing(env) ==> (EqualsIgnoreCase(env, a, b) <==> SameButCase(a, b))
  {
    if AsciiCasing(env) && |a| == |b| {
      forall i | 0 <= i < |a|
        ensures SameLetter(env, a[i], b[i]) <==> a[i] == b[i] || LetterPair(a[i], b[i])
      {
        SameLetterMeaning(env, a[i], b[i]);
      }
      hide SameLetter, LetterPair, AsciiCasing;
    }
  }

  // ----- the wanted side

  /** A sink wants the headers of producers, whatever the case of its label; every other type wants
      those of consumers. */
  lemma SideMeaning(env: Environment, tp: string)
    ensures CamelType(env, tp) == "producer" || CamelType(env, tp) == "consumer"
    ensures tp == "sink" ==> CamelType(env, tp) == "producer"
    ensures tp == "source" || tp == "action" ==> CamelType(env, tp) == "consumer"
    ensures AsciiCasing(env) ==> (CamelType(env, tp) == "producer" <==> SameButCase(tp, "sink"))
  {
    IgnoringCase(env, tp, "sink");
    hide AsciiCasing, EqualsIgnoreCase, SameButCase;
  }

  /** A header without a label suits both sides. */
  lemma SuitsMeaning(env: Environment, h: EndpointHeader, side: string)
    ensures h.labelText == None || h.labelText == Some("") || h.labelText == Some(side) ==> Suits(env, h, side)
    ensures AsciiCasing(env) ==>
              (Suits(env, h, side) <==>
               h.labelText == None || h.labelText == Some("") || SameButCase(h.labelText.value, side))
  {
    if h.labelText.Some? {
      IgnoringCase(env, h.labelText.value, side);
    }
    hide AsciiCasing, EqualsIgnoreCase, SameButCase;
  }

  // ----- what is missing

  predicate HasLabels(k: Kamelet) {
    k.metadata.Some? && k.metadata.value.labels.Some?
  }

  predicate HasType(k: Kamelet) {
    HasLabels(k) && "camel.apache.org/kamelet.type" in k.metadata.value.labels.value
  }

  predicate HasName(k: Kamelet) {
    HasType(k) && k.metadata.value.name.Some?
  }

  /** The failures in the order in which they are met: each one when all before it are not. */
  lemma MissingMeaning(k: Kamelet)
    ensures Missing(k) == Some(NoMetadata) <==> k.metadata == None
    ensures Missing(k) == Some(NoLabels) <==> k.metadata.Some? && !HasLabels(k)
    ensures Missing(k) == Some(NoTypeLabel) <==> HasLabels(k) && !HasType(k)
    ensures Missing(k) == Some(NoName) <==> HasType(k) && !HasName(k)
    ensures Missing(k) == Some(NoPrefix) <==> HasName(k) && '-' !in k.metadata.value.name.value
    ensures Missing(k) == None <==> HasName(k) && '-' in k.metadata.value.name.value
  {}

  // ----- the key of any path

  /** The path is cut before the last suffix, unless it starts with that, and loses nine characters
      in front; it has no key when fewer than nine are left. */
  lemma KeyMeaning(path: string)
    ensures forall stem, rest ::
              stem != "" && LastSuffix(path, stem, rest) ==>
                SanitizeFileName(path) == if |stem| < 9 then None else Some(stem[9..])
    ensures (forall stem, rest :: stem != "" ==> !LastSuffix(path, stem, rest)) ==>
              SanitizeFileName(path) == if |path| < 9 then None else Some(path[9..])
  {
    var i := LastIndexOf(path, ".kamelet.yaml");
    forall stem, rest | stem != "" && LastSuffix(path, stem, rest)
      ensures i == |stem| && path[..i] == stem
    {
      SuffixIsLast(path, stem, rest);
    }
    if i > 0 {
      OccurrenceIsSuffix(path, i);
    }
    hide LastSuffix, LastIndexOf;
  }

  /** The suffix stands after the stem and starts nowhere later. */
  ghost predicate LastSuffix(path: string, stem: string, rest: string) {
    path == stem + ".kamelet.yaml" + rest && NoSuffixAfter(path, |stem|)
  }

  ghost predicate NoSuffixAfter(path: string, i: nat) {
    forall j: nat :: i < j ==> !OccursAt(path, ".kamelet.yaml", j)
  }

  lemma SuffixIsLast(path: string, stem: string, rest: string)
    requires LastSuffix(path, stem, rest)
    ensures LastIndexOf(path, ".kamelet.yaml") == |stem| && path[..|stem|] == stem
  {
    assert path[|stem|..|stem| + |".kamelet.yaml"|] == ".kamelet.yaml";
    assert OccursAt(path, ".kamelet.yaml", |stem|);
    hide OccursAt;
  }

  lemma OccurrenceIsSuffix(path: string, i: nat)
    requires OccursAt(path, ".kamelet.yaml", i) && NoSuffixAfter(path, i)
    ensures LastSuffix(path, path[..i], path[i + |".kamelet.yaml"|..])
  {
    var n := |".kamelet.yaml"|;
    assert path == path[..i] + path[i..i + n] + path[i + n..];
    hide OccursAt;
  }
}
