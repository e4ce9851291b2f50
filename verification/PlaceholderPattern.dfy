/** The pattern of the placeholders as a grammar, and what the scan finds in some texts. */
module PlaceholderPattern {
  import opened Options
  import opened Placeholders

  /** Letters, digits, the dash, the full stop and the underscore. */
  predicate OfName(c: char) {
    'A' <= c <= 'Z' || 'a' <= c <= 'z' || '0' <= c <= '9' || c in {'-', '.', '_'}
  }

  predicate NameText(name: string) {
    name != "" && forall i :: 0 <= i < |name| ==> OfName(name[i])
  }

  predicate DefaultText(d: string) {
    d == "" || (d[0] == ':' && '}' !in d)
  }

  /** The whole text is a placeholder: braces, a question mark or not, a name, a default or not. */
  predicate Reads(t: string, q: string, name: string, d: string) {
    (q == "" || q == "?") && NameText(name) && DefaultText(d) && t == "{{" + q + name + d + "}}"
  }

  lemma MatchReads(s: string, m: Match, p: nat, e: nat)
    requires Parts(s, m, p, e)
    ensures Reads(s[m.start..m.end], s[m.start + 2..p], m.name, s[e..m.end - 2])
  {
    var t := s[m.start..m.end];
    var q, d := s[m.start + 2..p], s[e..m.end - 2];
    assert t == t[..2] + q + m.name + d + t[|t| - 2..];
    assert t[..2] == "{{" && t[|t| - 2..] == "}}";
    assert forall i :: 0 <= i < |m.name| ==> m.name[i] == s[p + i];
  }

  lemma PlacesOf(t: string, q: string, name: string, d: string)
    requires t == "{{" + q + name + d + "}}"
    ensures var p, e := 2 + |q|, 2 + |q| + |name|;
            && |t| == e + |d| + 2
            && t[0] == '{' && t[1] == '{' && t[|t| - 2] == '}' && t[|t| - 1] == '}'
            && t[2..p] == q && t[p..e] == name && t[e..|t| - 2] == d
  {}

  lemma PartsOfWhole(t: string, q: string, name: string, d: string)
    requires Reads(t, q, name, d)
    ensures Parts(t, Match(0, |t|, name), 2 + |q|, 2 + |q| + |name|)
  {
    PlacesOf(t, q, name, d);
    var p, e, n := 2 + |q|, 2 + |q| + |name|, |t| - 2;
    assert t != [] && |name| > 0;
    Indexed(t, 2, p);
    Indexed(t, p, e);
    Indexed(t, e, n);
    hide Reads;
    assert forall k :: p <= k < e ==> t[k] == name[k - p];
    assert forall k :: e <= k < n ==> t[k] == d[k - e];
    NameOf(name, q, d, t);
    assert d != "" ==> t[e] == d[0];
    assert q != "" ==> t[2] == q[0];
  }

  lemma NameOf(name: string, q: string, d: string, t: string)
    requires Reads(t, q, name, d)
    ensures (q == "" || q == "?") && name != "" && (forall i :: 0 <= i < |name| ==> NameChar(name[i]))
    ensures d != "" ==> d[0] == ':'
    ensures forall i :: 0 <= i < |d| ==> d[i] != '}'
  {}

  lemma Indexed(t: string, i: nat, j: nat)
    requires i <= j <= |t|
    ensures forall k :: i <= k < j ==> t[k] == t[i..j][k - i]
  {}

  lemma PartsShift(s: string, m: Match, t: string, p: nat, e: nat)
    requires m.start <= m.end <= |s| && t == s[m.start..m.end] && Parts(t, Match(0, |t|, m.name), p, e)
    ensures Parts(s, m, m.start + p, m.start + e)
  {
    hide NameChar;
    var i := m.start;
    Indexed(s, i, m.end);
    assert s[i + p..i + e] == t[p..e];
    forall k | i + p <= k < i + e
      ensures NameChar(s[k])
    {
      assert s[k] == t[k - i];
    }
    forall k | i + e <= k < m.end - 2
      ensures s[k] != '}'
    {
      assert s[k] == t[k - i];
    }
    assert s[i] == t[0] && s[i + 1] == t[1] && s[i + 2] == t[2] && s[i + e] == t[e];
    assert s[m.end - 2] == t[|t| - 2] && s[m.end - 1] == t[|t| - 1];
  }

  /** A match is exactly a stretch of the text that reads as a placeholder of that name. */
  lemma MatchMeaning(s: string, m: Match)
    ensures Matches(s, m) <==>
            m.start <= m.end <= |s| && exists q, d :: Reads(s[m.start..m.end], q, m.name, d)
  {
    if Matches(s, m) {
      var p: nat, e: nat :| Parts(s, m, p, e);
      MatchReads(s, m, p, e);
    }
    if m.start <= m.end <= |s| && exists q, d :: Reads(s[m.start..m.end], q, m.name, d) {
      var q, d :| Reads(s[m.start..m.end], q, m.name, d);
      PartsOfWhole(s[m.start..m.end], q, m.name, d);
      PartsShift(s, m, s[m.start..m.end], 2 + |q|, 2 + |q| + |m.name|);
      assert Matches(s, m);
    }
    hide Parts, Reads;
  }

  /** A text that is one placeholder is found as a whole, with its name. */
  lemma WholeTextIsFound(t: string, q: string, name: string, d: string)
    requires Reads(t, q, name, d)
    ensures Scan(t) == [Match(0, |t|, name)]
  {
    hide Parts;
    var m := Match(0, |t|, name);
    PartsOfWhole(t, q, name, d);
    assert Matches(t, m);
    MatchAtComplete(t, m);
    hide MatchAt, Matches, Reads;
    assert ScanFrom(t, |t| + 1) == [];
    NothingAtEnd(t);
  }

  lemma NothingAtEnd(t: string)
    ensures ScanFrom(t, |t|) == []
  {}

  /** A name with a dash, and one that is optional and has a default. */
  lemma UsualPlaceholders()
    ensures Scan("{{access-key}}") == [Match(0, 14, "access-key")]
    ensures Scan("{{?a.b_C:9 z}}") == [Match(0, 14, "a.b_C")]
  {
    hide Scan;
    assert Reads("{{access-key}}", "", "access-key", "");
    WholeTextIsFound("{{access-key}}", "", "access-key", "");
    assert Reads("{{?a.b_C:9 z}}", "?", "a.b_C", ":9 z");
    WholeTextIsFound("{{?a.b_C:9 z}}", "?", "a.b_C", ":9 z");
  }
}
