/** The {{param}} placeholders of a template: the pattern, the scan for its matches, and the
    texts that print a given list of placeholders. */
module Placeholders {
  import opened Options

  datatype Match = Match(start: nat, end: nat, name: string)

  predicate NameChar(c: char) {
    'A' <= c <= 'Z' || 'a' <= c <= 'z' || '0' <= c <= '9' || c == '-' || c == '.' || c == '_'
  }

  predicate IsName(name: string) {
    name != "" && forall i :: 0 <= i < |name| ==> NameChar(name[i])
  }

  predicate At(s: string, i: nat, c: char) {
    i < |s| && s[i] == c
  }

  /** The pattern, with the name at p..e: two opening braces, perhaps a question mark, the
      name, perhaps a colon and a default without closing braces, two closing braces. */
  predicate Parts(s: string, m: Match, p: nat, e: nat) {
    && m.start + 2 <= p < e <= m.end - 2 && m.end <= |s|
    && s[m.start] == '{' && s[m.start + 1] == '{'
    && (p == m.start + 2 || (p == m.start + 3 && s[m.start + 2] == '?'))
    && m.name == s[p..e] && (forall k :: p <= k < e ==> NameChar(s[k]))
    && (e < m.end - 2 ==> s[e] == ':')
    && (forall k :: e <= k < m.end - 2 ==> s[k] != '}')
    && s[m.end - 2] == '}' && s[m.end - 1] == '}'
  }

  ghost predicate Matches(s: string, m: Match) {
    exists p: nat, e: nat :: Parts(s, m, p, e)
  }

  // ----- matching at one position

  /** The end of the run of name characters that starts at i. */
  function NameEnd(s: string, i: nat): (e: nat)
    requires i <= |s|
    ensures i <= e <= |s|
    ensures forall k :: i <= k < e ==> NameChar(s[k])
    ensures e < |s| ==> !NameChar(s[e])
    decreases |s| - i
  {
    if i < |s| && NameChar(s[i]) then NameEnd(s, i + 1) else i
  }

  /** The place of the first closing brace from i on, or the end of the text. */
  function BraceFrom(s: string, i: nat): (e: nat)
    requires i <= |s|
    ensures i <= e <= |s|
    ensures forall k :: i <= k < e ==> s[k] != '}'
    ensures e < |s| ==> s[e] == '}'
    decreases |s| - i
  {
    if i < |s| && s[i] != '}' then BraceFrom(s, i + 1) else i
  }

  function MatchAt(s: string, i: nat): Option<Match> {
    if !(At(s, i, '{') && At(s, i + 1, '{')) then None
    else
      var p := if At(s, i + 2, '?') then i + 3 else i + 2;
      var e := NameEnd(s, p);
      var d := if At(s, e, ':') then BraceFrom(s, e) else e;
      if p < e && At(s, d, '}') && At(s, d + 1, '}') then Some(Match(i, d + 2, s[p..e])) else None
  }

  lemma MatchAtSound(s: string, i: nat)
    requires MatchAt(s, i).Some?
    ensures Matches(s, MatchAt(s, i).value) && MatchAt(s, i).value.start == i
  {
    var p := if At(s, i + 2, '?') then i + 3 else i + 2;
    assert Parts(s, MatchAt(s, i).value, p, NameEnd(s, p));
  }

  lemma NameEndIs(s: string, i: nat, e: nat)
    requires i <= e < |s| && !NameChar(s[e]) && forall k :: i <= k < e ==> NameChar(s[k])
    ensures NameEnd(s, i) == e
  {
    hide NameChar;
  }

  lemma BraceFromIs(s: string, i: nat, e: nat)
    requires i <= e < |s| && s[e] == '}' && forall k :: i <= k < e ==> s[k] != '}'
    ensures BraceFrom(s, i) == e
  {}

  lemma MatchAtComplete(s: string, m: Match)
    requires Matches(s, m)
    ensures MatchAt(s, m.start) == Some(m)
  {
    var p: nat, e: nat :| Parts(s, m, p, e);
    assert !NameChar('?') && !NameChar(':') && !NameChar('}');
    assert NameChar(s[p]) && !NameChar(s[e]);
    NameEndIs(s, p, e);
    BraceFromIs(s, e, m.end - 2);
    hide NameChar, NameEnd, BraceFrom;
    assert p == if At(s, m.start + 2, '?') then m.start + 3 else m.start + 2;
    assert e == m.end - 2 || At(s, e, ':');
  }

  /** There is at most one match at a position: the pattern leaves no choice. */
  lemma MatchIsUnique(s: string, m: Match, n: Match)
    requires Matches(s, m) && Matches(s, n) && m.start == n.start
    ensures m == n
  {
    MatchAtComplete(s, m);
    MatchAtComplete(s, n);
  }

  // ----- the find loop

  /** The matches that repeated find calls yield from position i on. */
  function ScanFrom(s: string, i: nat): seq<Match>
    decreases |s| + 1 - i
  {
    if i > |s| then []
    else
      var m := MatchAt(s, i);
      if m.Some? then [m.value] + ScanFrom(s, m.value.end) else ScanFrom(s, i + 1)
  }

  function Scan(s: string): seq<Match> {
    ScanFrom(s, 0)
  }

  ghost predicate Covered(ms: seq<Match>, i: nat) {
    exists k :: 0 <= k < |ms| && ms[k].start <= i < ms[k].end
  }

  ghost predicate Disjoint(ms: seq<Match>) {
    && (forall k :: 0 <= k < |ms| ==> ms[k].start < ms[k].end)
    && (forall k, l :: 0 <= k < l < |ms| ==> ms[k].end <= ms[l].start)
  }

  /** Matches in order, disjoint, and such that no match starts outside them. */
  ghost predicate LeftmostDisjoint(s: string, from: nat, ms: seq<Match>) {
    && Disjoint(ms)
    && (forall k :: 0 <= k < |ms| ==> Matches(s, ms[k]) && from <= ms[k].start)
    && (forall m :: Matches(s, m) && from <= m.start ==> Covered(ms, m.start))
  }

  lemma CoveredMore(first: Match, rest: seq<Match>, i: nat)
    ensures Covered([first] + rest, i) <==> first.start <= i < first.end || Covered(rest, i)
  {
    if Covered(rest, i) {
      var k :| 0 <= k < |rest| && rest[k].start <= i < rest[k].end;
      assert ([first] + rest)[k + 1] == rest[k];
    }
    if first.start <= i < first.end {
      assert ([first] + rest)[0] == first;
    }
  }

  lemma NoMatchHere(s: string, i: nat, ms: seq<Match>)
    requires LeftmostDisjoint(s, i + 1, ms) && MatchAt(s, i).None?
    ensures LeftmostDisjoint(s, i, ms)
  {
    hide Covered, Matches;
    forall m | Matches(s, m) && i <= m.start
      ensures Covered(ms, m.start)
    {
      MatchAtComplete(s, m);
    }
  }

  lemma MatchHere(s: string, first: Match, ms: seq<Match>)
    requires LeftmostDisjoint(s, first.end, ms) && Matches(s, first) && first.start < first.end
    ensures LeftmostDisjoint(s, first.start, [first] + ms)
  {
    hide Covered, Matches;
    forall m | Matches(s, m) && first.start <= m.start
      ensures Covered([first] + ms, m.start)
    {
      CoveredMore(first, ms, m.start);
    }
  }

  lemma {:induction false} ScanIsLeftmostDisjoint(s: string, i: nat)
    ensures LeftmostDisjoint(s, i, ScanFrom(s, i))
    decreases |s| + 1 - i
  {
    if i > |s| {
      forall m | Matches(s, m) && i <= m.start
        ensures false
      {
        MatchAtComplete(s, m);
      }
    } else if MatchAt(s, i).Some? {
      var first := MatchAt(s, i).value;
      MatchAtSound(s, i);
      ScanIsLeftmostDisjoint(s, first.end);
      hide LeftmostDisjoint, Matches;
      MatchHere(s, first, ScanFrom(s, first.end));
    } else {
      ScanIsLeftmostDisjoint(s, i + 1);
      hide LeftmostDisjoint, Matches;
      NoMatchHere(s, i, ScanFrom(s, i + 1));
    }
  }

  /** The match of one list that covers the start of the other's is no later than it. */
  lemma CoveringStartsEarlier(s: string, a: seq<Match>, b: seq<Match>, n: nat)
    requires LeftmostDisjoint(s, 0, a) && LeftmostDisjoint(s, 0, b) && n < |a|
    requires n <= |b| && forall l :: 0 <= l < n ==> a[l] == b[l]
    ensures n < |b| && b[n].start <= a[n].start
  {
    hide Matches;
    assert Matches(s, a[n]);
    var k :| 0 <= k < |b| && b[k].start <= a[n].start < b[k].end;
    assert n <= k;
    assert k == n || b[n].end <= b[k].start;
  }

  lemma NextIsSame(s: string, a: seq<Match>, b: seq<Match>, n: nat)
    requires LeftmostDisjoint(s, 0, a) && LeftmostDisjoint(s, 0, b) && n < |a|
    requires n <= |b| && forall l :: 0 <= l < n ==> a[l] == b[l]
    ensures n < |b| && a[n] == b[n]
  {
    CoveringStartsEarlier(s, a, b, n);
    CoveringStartsEarlier(s, b, a, n);
    hide Matches, Covered;
    assert Matches(s, a[n]) && Matches(s, b[n]);
    MatchIsUnique(s, a[n], b[n]);
  }

  lemma {:induction false} AlignedPrefix(s: string, a: seq<Match>, b: seq<Match>, n: nat)
    requires LeftmostDisjoint(s, 0, a) && LeftmostDisjoint(s, 0, b) && n <= |a|
    ensures n <= |b| && forall l :: 0 <= l < n ==> a[l] == b[l]
  {
    hide LeftmostDisjoint;
    if n > 0 {
      AlignedPrefix(s, a, b, n - 1);
      NextIsSame(s, a, b, n - 1);
    }
  }

  /** Being leftmost and disjoint determines the list, so it is what find yields. */
  lemma LeftmostDisjointIsScan(s: string, ms: seq<Match>)
    requires LeftmostDisjoint(s, 0, ms)
    ensures ms == Scan(s)
  {
    ScanIsLeftmostDisjoint(s, 0);
    hide LeftmostDisjoint;
    AlignedPrefix(s, ms, Scan(s), |ms|);
    AlignedPrefix(s, Scan(s), ms, |Scan(s)|);
  }

  // ----- printing and scanning

  /** A stretch of a template. */
  datatype Piece =
    | Literal(text: string)
    | Placeholder(optional: bool, name: string, default: Option<string>)

  predicate Printable(p: Piece) {
    match p
    case Literal(text) => '{' !in text && '}' !in text
    case Placeholder(_, name, default) => IsName(name) && (default.Some? ==> '}' !in default.value)
  }

  function PrintPiece(p: Piece): string {
    match p
    case Literal(text) => text
    case Placeholder(optional, name, default) =>
      "{{" + (if optional then "?" else "") + name + (if default.Some? then ":" + default.value else "") + "}}"
  }

  function Print(ps: seq<Piece>): string {
    if ps == [] then "" else Print(ps[..|ps| - 1]) + PrintPiece(ps[|ps| - 1])
  }

  function NamesOf(ps: seq<Piece>): seq<string> {
    if ps == [] then []
    else NamesOf(ps[..|ps| - 1]) + if ps[|ps| - 1].Placeholder? then [ps[|ps| - 1].name] else []
  }

  function Names(ms: seq<Match>): seq<string> {
    seq(|ms|, i requires 0 <= i < |ms| => ms[i].name)
  }

  /** Where the placeholders come to stand. */
  function Spans(ps: seq<Piece>): seq<Match> {
    if ps == [] then []
    else
      var front, last := ps[..|ps| - 1], ps[|ps| - 1];
      Spans(front) +
        if last.Placeholder? then [Match(|Print(front)|, |Print(ps)|, last.name)] else []
  }

  /** Every opening brace of the text lies in one of the spans. */
  ghost predicate BracesInside(s: string, ms: seq<Match>) {
    forall i :: 0 <= i < |s| && s[i] == '{' ==> Covered(ms, i)
  }

  lemma PlaceholderMatches(front: string, p: Piece)
    requires p.Placeholder? && Printable(p)
    ensures Matches(front + PrintPiece(p), Match(|front|, |front + PrintPiece(p)|, p.name))
  {
    var t := PrintPiece(p);
    var s := front + t;
    var q := if p.optional then "?" else "";
    var d := if p.default.Some? then ":" + p.default.value else "";
    assert t == "{{" + q + p.name + d + "}}";
    var b := 2 + |q|;
    var e := b + |p.name|;
    assert forall k :: b <= k < e ==> t[k] == p.name[k - b];
    assert forall k :: e <= k < e + |d| ==> t[k] == d[k - e];
    assert forall k :: 0 <= k < |t| ==> s[|front| + k] == t[k];
    assert s[|front| + b..|front| + e] == p.name;
    assert Parts(s, Match(|front|, |s|, p.name), |front| + b, |front| + e);
  }

  lemma MatchesLonger(s: string, more: string, m: Match)
    requires Matches(s, m)
    ensures Matches(s + more, m)
  {
    var p: nat, e: nat :| Parts(s, m, p, e);
    assert (s + more)[p..e] == s[p..e];
    assert Parts(s + more, m, p, e);
  }

  lemma CoveredStill(ms: seq<Match>, more: seq<Match>, i: nat)
    requires Covered(ms, i)
    ensures Covered(ms + more, i)
  {
    var k :| 0 <= k < |ms| && ms[k].start <= i < ms[k].end;
    assert (ms + more)[k] == ms[k];
  }

  /** The spans are matches, in order and disjoint, and hold every opening brace. */
  ghost predicate SpansFit(s: string, ms: seq<Match>) {
    && Disjoint(ms) && BracesInside(s, ms)
    && forall k :: 0 <= k < |ms| ==> Matches(s, ms[k]) && ms[k].end <= |s|
  }

  lemma SpansFitMore(s: string, ms: seq<Match>, p: Piece)
    requires SpansFit(s, ms) && Printable(p)
    ensures var t := s + PrintPiece(p);
            SpansFit(t, ms + if p.Placeholder? then [Match(|s|, |t|, p.name)] else [])
  {
    var t := s + PrintPiece(p);
    var more := if p.Placeholder? then [Match(|s|, |t|, p.name)] else [];
    forall k | 0 <= k < |ms|
      ensures Matches(t, ms[k])
    {
      MatchesLonger(s, PrintPiece(p), ms[k]);
    }
    if p.Placeholder? {
      PlaceholderMatches(s, p);
    }
    forall i | 0 <= i < |t| && t[i] == '{'
      ensures Covered(ms + more, i)
    {
      if i < |s| {
        CoveredStill(ms, more, i);
      } else {
        assert PrintPiece(p)[i - |s|] == '{';
        assert (ms + more)[|ms|].start <= i < (ms + more)[|ms|].end;
      }
    }
    hide Matches, Covered;
  }

  lemma {:induction false} SpansCoverPrint(ps: seq<Piece>)
    requires forall i :: 0 <= i < |ps| ==> Printable(ps[i])
    ensures SpansFit(Print(ps), Spans(ps)) && Names(Spans(ps)) == NamesOf(ps)
  {
    hide SpansFit, PrintPiece;
    if ps == [] {
      assert SpansFit("", []) by {
        NothingToFit();
      }
    } else {
      var front, last := ps[..|ps| - 1], ps[|ps| - 1];
      SpansCoverPrint(front);
      SpansFitMore(Print(front), Spans(front), last);
    }
  }

  lemma NothingToFit()
    ensures SpansFit("", [])
  {}

  lemma FittingIsLeftmost(s: string, ms: seq<Match>)
    requires SpansFit(s, ms)
    ensures LeftmostDisjoint(s, 0, ms)
  {
    hide Covered, Parts;
    forall m | Matches(s, m)
      ensures Covered(ms, m.start)
    {
      MatchOpens(s, m);
    }
    hide Matches;
  }

  lemma MatchOpens(s: string, m: Match)
    requires Matches(s, m)
    ensures m.start < |s| && s[m.start] == '{'
  {
    var p: nat, e: nat :| Parts(s, m, p, e);
  }

  /** Scanning a printed template gives back the names of its placeholders, in order. */
  lemma ScanOfPrint(ps: seq<Piece>)
    requires forall i :: 0 <= i < |ps| ==> Printable(ps[i])
    ensures Names(Scan(Print(ps))) == NamesOf(ps)
  {
    SpansCoverPrint(ps);
    FittingIsLeftmost(Print(ps), Spans(ps));
    hide SpansFit, LeftmostDisjoint, Print, Spans, Scan;
    LeftmostDisjointIsScan(Print(ps), Spans(ps));
  }
}
