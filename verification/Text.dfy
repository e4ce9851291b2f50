/** String operations of the Java library, and what they mean. */
module Text {
  predicate StartsWith(s: string, prefix: string) {
    prefix <= s
  }

  predicate EndsWith(s: string, suffix: string) {
    |suffix| <= |s| && s[|s| - |suffix|..] == suffix
  }

  predicate OccursAt(s: string, sub: string, i: nat) {
    i + |sub| <= |s| && s[i..i + |sub|] == sub
  }

  predicate Contains(s: string, sub: string) {
    exists i | 0 <= i <= |s| :: OccursAt(s, sub, i)
  }

  /** The last place at or before i where sub occurs, or -1. */
  function LastIndexFrom(s: string, sub: string, i: int): (r: int)
    requires -1 <= i && i + |sub| <= |s|
    ensures -1 <= r <= i && (r >= 0 ==> OccursAt(s, sub, r))
    ensures forall j :: r < j <= i ==> !OccursAt(s, sub, j)
  {
    if i < 0 || OccursAt(s, sub, i) then i else LastIndexFrom(s, sub, i - 1)
  }

  /** String.lastIndexOf. */
  function LastIndexOf(s: string, sub: string): (r: int)
    ensures -1 <= r && (r >= 0 ==> OccursAt(s, sub, r))
    ensures forall j: nat :: r < j ==> !OccursAt(s, sub, j)
  {
    if |sub| <= |s| then LastIndexFrom(s, sub, |s| - |sub|) else -1
  }

  /** A text that occurs at the end and cannot occur later is found there. */
  lemma LastIndexOfSuffix(s: string, sub: string)
    requires EndsWith(s, sub)
    ensures LastIndexOf(s, sub) == |s| - |sub|
  {
    assert OccursAt(s, sub, |s| - |sub|);
  }

  /** The place of the first c from i on, or the length of s. */
  function IndexFrom(s: string, c: char, i: nat): (e: nat)
    requires i <= |s|
    ensures i <= e <= |s|
    ensures forall k :: i <= k < e ==> s[k] != c
    ensures e < |s| ==> s[e] == c
    decreases |s| - i
  {
    if i < |s| && s[i] != c then IndexFrom(s, c, i + 1) else i
  }

  function SplitFrom(s: string, c: char, i: nat): seq<string>
    requires i <= |s|
    decreases |s| - i
  {
    var e := IndexFrom(s, c, i);
    if e == |s| then [s[i..]] else [s[i..e]] + SplitFrom(s, c, e + 1)
  }

  lemma SplitAt(s: string, c: char, i: nat, e: nat)
    requires i <= e <= |s| && (e < |s| ==> s[e] == c) && forall k :: i <= k < e ==> s[k] != c
    ensures SplitFrom(s, c, i) == if e == |s| then [s[i..]] else [s[i..e]] + SplitFrom(s, c, e + 1)
  {
    assert IndexFrom(s, c, i) == e;
  }

  function DropTrailingEmpty(parts: seq<string>): seq<string> {
    if parts != [] && parts[|parts| - 1] == "" then DropTrailingEmpty(parts[..|parts| - 1]) else parts
  }

  /** String.split on one character: trailing empty parts are dropped, unless the character
      does not occur at all. */
  function Split(s: string, c: char): seq<string> {
    if c !in s then [s] else DropTrailingEmpty(SplitFrom(s, c, 0))
  }

  lemma SplitThreeAt(s: string, c: char, i: nat, j: nat)
    requires i < j < |s| - 1 && forall k :: 0 <= k < |s| ==> (s[k] == c <==> k == i || k == j)
    ensures Split(s, c) == [s[0..i], s[i + 1..j], s[j + 1..]]
  {
    SplitAt(s, c, 0, i);
    SplitAt(s, c, i + 1, j);
    SplitAt(s, c, j + 1, |s|);
    hide SplitFrom;
    assert SplitFrom(s, c, 0) == [s[0..i], s[i + 1..j], s[j + 1..]];
    assert s[i] == c && c in s;
    assert s[j + 1..] != "";
  }

  /** Three parts joined by the character are split again. */
  lemma SplitThree(x: string, y: string, z: string, c: char)
    requires c !in x && c !in y && c !in z && z != ""
    ensures Split(x + ([c] + (y + ([c] + z))), c) == [x, y, z]
  {
    var s, i, j := x + ([c] + (y + ([c] + z))), |x|, |x| + 1 + |y|;
    forall k | 0 <= k < |s|
      ensures s[k] == c <==> k == i || k == j
    {
      if k < i {
        assert s[k] == x[k];
      } else if i < k < j {
        assert s[k] == y[k - i - 1];
      } else if j < k {
        assert s[k] == z[k - j - 1];
      }
    }
    hide Split;
    SplitThreeAt(s, c, i, j);
    assert s[0..i] == x && s[i + 1..j] == y && s[j + 1..] == z;
  }

  /** s[a..b] is a maximal stretch without c. */
  predicate Segment(s: string, c: char, a: nat, b: nat) {
    && a <= b <= |s|
    && (a == 0 || s[a - 1] == c)
    && (b == |s| || s[b] == c)
    && forall k :: a <= k < b ==> s[k] != c
  }

  lemma {:induction false} PartIsSegment(s: string, c: char, i: nat, w: string) returns (a: nat, b: nat)
    requires i <= |s| && (i == 0 || s[i - 1] == c) && w in SplitFrom(s, c, i)
    ensures Segment(s, c, a, b) && s[a..b] == w
    decreases |s| - i
  {
    var e := IndexFrom(s, c, i);
    if w == s[i..e] {
      a, b := i, e;
    } else {
      a, b := PartIsSegment(s, c, e + 1, w);
    }
  }

  lemma {:induction false} SegmentIsPart(s: string, c: char, i: nat, a: nat, b: nat)
    requires i <= a && i <= |s| && (i == 0 || s[i - 1] == c) && Segment(s, c, a, b)
    ensures s[a..b] in SplitFrom(s, c, i)
    decreases |s| - i
  {
    var e := IndexFrom(s, c, i);
    hide IndexFrom;
    SplitAt(s, c, i, e);
    if a == i {
      assert b == e;
      if e == |s| {
        assert s[a..b] == s[i..];
      }
      assert s[a..b] == SplitFrom(s, c, i)[0];
    } else {
      assert s[a - 1] == c && e < |s| && e + 1 <= a;
      SegmentIsPart(s, c, e + 1, a, b);
      hide SplitFrom;
    }
  }

  lemma {:induction false} DropTrailingEmptyKeeps(parts: seq<string>, w: string)
    requires w != ""
    ensures w in DropTrailingEmpty(parts) <==> w in parts
  {
    if parts != [] && parts[|parts| - 1] == "" {
      DropTrailingEmptyKeeps(parts[..|parts| - 1], w);
    }
  }

  ghost predicate IsWordOf(s: string, c: char, w: string) {
    w != "" && exists a: nat, b: nat :: Segment(s, c, a, b) && s[a..b] == w
  }

  /** The non-empty parts of a split are the maximal non-empty stretches without c. */
  lemma SplitWords(s: string, c: char, w: string)
    ensures w != "" && w in Split(s, c) <==> IsWordOf(s, c, w)
  {
    if w != "" && w in Split(s, c) {
      if c in s {
        DropTrailingEmptyKeeps(SplitFrom(s, c, 0), w);
        var a, b := PartIsSegment(s, c, 0, w);
      } else {
        assert Segment(s, c, 0, |s|) && s[0..|s|] == s;
      }
    }
    if IsWordOf(s, c, w) {
      var a: nat, b: nat :| Segment(s, c, a, b) && s[a..b] == w;
      if c in s {
        SegmentIsPart(s, c, 0, a, b);
        DropTrailingEmptyKeeps(SplitFrom(s, c, 0), w);
      } else {
        assert a == 0 && b == |s|;
        assert s[a..b] == s;
      }
    }
  }
}
