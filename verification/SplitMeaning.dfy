/** Splitting a text at a character: the parts, joined again, are the text without the characters
    at its end. */
module SplitMeaning {
  import opened Text

  function Joined(parts: seq<string>, c: char): string {
    if parts == [] then ""
    else if |parts| == 1 then parts[0]
    else parts[0] + [c] + Joined(parts[1..], c)
  }

  function Run(c: char, n: nat): string {
    seq(n, _ => c)
  }

  lemma JoinedFirst(first: string, rest: seq<string>, c: char)
    requires rest != []
    ensures Joined([first] + rest, c) == first + [c] + Joined(rest, c)
  {
    assert ([first] + rest)[1..] == rest;
  }

  lemma JoinedOne(first: string, c: char)
    ensures Joined([first], c) == first
  {}

  lemma CutAt(s: string, c: char, i: nat, e: nat)
    requires i <= e < |s| && s[e] == c
    ensures s[i..] == s[i..e] + [c] + s[e + 1..]
  {}

  lemma {:induction false} PartsOfRest(s: string, c: char, i: nat)
    requires i <= |s|
    ensures SplitFrom(s, c, i) != [] && Joined(SplitFrom(s, c, i), c) == s[i..]
    ensures forall w :: w in SplitFrom(s, c, i) ==> c !in w
    decreases |s| - i
  {
    hide IndexFrom, SplitFrom, Joined;
    var e := IndexFrom(s, c, i);
    var part := s[i..e];
    SplitAt(s, c, i, e);
    assert c !in part;
    if e < |s| {
      PartsOfRest(s, c, e + 1);
      JoinedFirst(part, SplitFrom(s, c, e + 1), c);
      CutAt(s, c, i, e);
    } else {
      JoinedOne(s[i..], c);
    }
  }

  lemma {:induction false} JoinedWithEmpty(parts: seq<string>, c: char)
    requires parts != []
    ensures Joined(parts + [""], c) == Joined(parts, c) + [c]
  {
    assert (parts + [""])[1..] == parts[1..] + [""];
    if |parts| > 1 {
      JoinedWithEmpty(parts[1..], c);
      assert parts[0] + [c] + (Joined(parts[1..], c) + [c]) == Joined(parts, c) + [c];
    } else {
      assert Joined([""], c) == "";
      assert parts[0] + [c] + "" == parts[0] + [c];
    }
  }

  /** What dropping the empty parts at the end leaves out of the joined text. */
  lemma {:induction false} DroppedParts(parts: seq<string>, c: char) returns (n: nat)
    requires parts != []
    ensures var kept := DropTrailingEmpty(parts);
            && kept <= parts && (kept != [] ==> kept[|kept| - 1] != "")
            && Joined(parts, c) == Joined(kept, c) + Run(c, n)
            && (parts[|parts| - 1] == "" && |parts| > 1 ==> n > 0)
  {
    n := 0;
    if parts[|parts| - 1] == "" {
      var front := parts[..|parts| - 1];
      if front != [] {
        n := DroppedParts(front, c);
        assert parts == front + [""];
        JoinedWithEmpty(front, c);
        assert Run(c, n) + [c] == Run(c, n + 1);
        n := n + 1;
      }
    }
  }

  /** A text without the character is its only part. Otherwise the parts are free of the character,
      the last one is not empty, and joined they are the text up to the characters at its end. */
  lemma SplitJoins(s: string, c: char) returns (n: nat)
    ensures c !in s ==> Split(s, c) == [s]
    ensures c in s ==>
              && s == Joined(Split(s, c), c) + Run(c, n)
              && (forall w :: w in Split(s, c) ==> c !in w)
              && (Split(s, c) != [] ==> Split(s, c)[|Split(s, c)| - 1] != "")
  {
    PartsOfRest(s, c, 0);
    n := DroppedParts(SplitFrom(s, c, 0), c);
    assert s[0..] == s;
    assert forall w :: w in DropTrailingEmpty(SplitFrom(s, c, 0)) ==> w in SplitFrom(s, c, 0);
    hide SplitFrom, DropTrailingEmpty, Joined;
  }
}
