/** The lexicographic order of strings, and sorted listings of sets of strings. */
module StringOrder {

  predicate Le(a: string, b: string) {
    a == "" || (b != "" && (a[0] < b[0] || (a[0] == b[0] && Le(a[1..], b[1..]))))
  }

  /** A string comes before those it begins, and otherwise the first difference decides. */
  lemma {:induction false} LeMeaning(a: string, b: string)
    ensures Le(a, b) <==> a <= b || exists i :: FirstDifference(a, b, i) && a[i] < b[i]
  {
    if a != "" && b != "" {
      var x, y := a[1..], b[1..];
      LeMeaning(x, y);
      if a[0] == b[0] {
        assert a <= b <==> x <= y by {
          assert a == [a[0]] + x && b == [b[0]] + y;
        }
        forall i
          ensures FirstDifference(a, b, i + 1) <==> FirstDifference(x, y, i)
        {
          DifferenceShifts(a, b, i);
        }
        if exists i :: FirstDifference(a, b, i) && a[i] < b[i] {
          var i :| FirstDifference(a, b, i) && a[i] < b[i];
          assert FirstDifference(x, y, i - 1);
        }
        if exists i :: FirstDifference(x, y, i) && x[i] < y[i] {
          var i :| FirstDifference(x, y, i) && x[i] < y[i];
          assert FirstDifference(a, b, i + 1);
        }
      } else {
        assert FirstDifference(a, b, 0);
      }
    }
  }

  predicate FirstDifference(a: string, b: string, i: int) {
    0 <= i < |a| && i < |b| && a[i] != b[i] && forall j :: 0 <= j < i ==> a[j] == b[j]
  }

  lemma DifferenceShifts(a: string, b: string, i: int)
    requires a != "" && b != "" && a[0] == b[0]
    ensures FirstDifference(a, b, i + 1) <==> FirstDifference(a[1..], b[1..], i)
  {
    if FirstDifference(a[1..], b[1..], i) {
      assert forall j :: 0 < j < |a| && j < |b| ==> a[j] == a[1..][j - 1] && b[j] == b[1..][j - 1];
    }
  }

  lemma {:induction false} LeReflexive(a: string)
    ensures Le(a, a)
  {
    if a != "" {
      LeReflexive(a[1..]);
    }
  }

  lemma {:induction false} LeTotal(a: string, b: string)
    ensures Le(a, b) || Le(b, a)
  {
    if a != "" && b != "" && a[0] == b[0] {
      LeTotal(a[1..], b[1..]);
    }
  }

  lemma {:induction false} LeAntisymmetric(a: string, b: string)
    requires Le(a, b) && Le(b, a)
    ensures a == b
  {
    if a != "" {
      LeAntisymmetric(a[1..], b[1..]);
      assert a == [a[0]] + a[1..] && b == [b[0]] + b[1..];
    }
  }

  lemma {:induction false} LeTransitive(a: string, b: string, c: string)
    requires Le(a, b) && Le(b, c)
    ensures Le(a, c)
  {
    if a != "" && a[0] == b[0] && b[0] == c[0] {
      LeTransitive(a[1..], b[1..], c[1..]);
    }
  }

  ghost predicate IsLeast(s: set<string>, m: string) {
    m in s && forall x :: x in s ==> Le(m, x)
  }

  lemma {:induction false} LeastExists(s: set<string>) returns (m: string)
    requires s != {}
    ensures IsLeast(s, m)
    decreases |s|
  {
    var x :| x in s;
    if s == {x} {
      LeReflexive(x);
      m := x;
    } else {
      var least := LeastExists(s - {x});
      LeTotal(x, least);
      LeReflexive(x);
      m := if Le(x, least) then x else least;
      forall y | y in s
        ensures Le(m, y)
      {
        if y != x && m == x {
          LeTransitive(x, least, y);
        }
      }
    }
  }

  /** The elements of a set in ascending order, each one once. */
  ghost function Sorted(s: set<string>): seq<string>
    decreases |s|
  {
    if s == {} then []
    else
      LeastOf(s);
      var m :| IsLeast(s, m);
      [m] + Sorted(s - {m})
  }

  lemma LeastOf(s: set<string>)
    requires s != {}
    ensures exists m :: IsLeast(s, m)
  {
    var m := LeastExists(s);
  }

  ghost predicate Ascending(l: seq<string>) {
    forall i, j :: 0 <= i < j < |l| ==> Le(l[i], l[j])
  }

  ghost predicate NoRepeats(l: seq<string>) {
    forall i, j :: 0 <= i < j < |l| ==> l[i] != l[j]
  }

  ghost predicate Lists(l: seq<string>, s: set<string>) {
    forall x :: x in l <==> x in s
  }

  lemma LeastBefore(m: string, rest: seq<string>, s: set<string>)
    requires IsLeast(s, m) && Lists(rest, s - {m}) && Ascending(rest) && NoRepeats(rest)
    ensures Lists([m] + rest, s) && Ascending([m] + rest) && NoRepeats([m] + rest)
  {
    hide Le;
    var l := [m] + rest;
    assert forall j :: 0 <= j < |rest| ==> rest[j] in rest;
    forall i, j | 0 <= i < j < |l|
      ensures Le(l[i], l[j]) && l[i] != l[j]
    {
      assert l[j] == rest[j - 1];
    }
  }

  lemma {:induction false} SortedLists(s: set<string>)
    ensures Lists(Sorted(s), s) && Ascending(Sorted(s)) && NoRepeats(Sorted(s))
    decreases |s|
  {
    if s != {} {
      LeastOf(s);
      var m := Sorted(s)[0];
      LeastIsFirst(s, m);
      SortedLists(s - {m});
      LeastBefore(m, Sorted(s - {m}), s);
    }
    hide Le;
  }

  lemma LeastIsFirst(s: set<string>, first: string)
    requires s != {} && first == Sorted(s)[0]
    ensures IsLeast(s, first) && Sorted(s) == [first] + Sorted(s - {first})
  {
    LeastOf(s);
  }

  /** A listing in ascending order starts with the least element. */
  lemma ListingStarts(l: seq<string>, s: set<string>, m: string)
    requires l != [] && Lists(l, s) && Ascending(l) && IsLeast(s, m)
    ensures l[0] == m
  {
    assert l[0] in l;
    var i :| 0 <= i < |l| && l[i] == m;
    if i > 0 {
      hide Le;
      LeAntisymmetric(m, l[0]);
    }
  }

  lemma RestLists(l: seq<string>, s: set<string>)
    requires l != [] && Lists(l, s) && NoRepeats(l)
    ensures Lists(l[1..], s - {l[0]})
  {
    assert l == [l[0]] + l[1..];
    forall x
      ensures x in l[1..] <==> x in s - {l[0]}
    {
      if x in l[1..] {
        var j :| 0 <= j < |l[1..]| && l[1..][j] == x;
        assert l[j + 1] == x && x in l;
      }
    }
  }

  /** A listing in ascending order without repeats is the sorted one. */
  lemma {:induction false} SortedIsUnique(l: seq<string>, s: set<string>)
    requires Lists(l, s) && Ascending(l) && NoRepeats(l)
    ensures l == Sorted(s)
    decreases |s|
  {
    if l == [] {
      assert s == {} by {
        assert forall x :: x in s ==> x in l;
      }
    } else {
      assert l[0] in l && l[0] in s;
      var m := Sorted(s)[0];
      LeastIsFirst(s, m);
      ListingStarts(l, s, m);
      RestLists(l, s);
      assert Ascending(l[1..]) && NoRepeats(l[1..]);
      hide Ascending, NoRepeats, Lists, IsLeast, Sorted;
      SortedIsUnique(l[1..], s - {m});
      assert l == [m] + l[1..];
    }
  }

  /** Iteration over a sorted set. */
  method SortedElements(s: set<string>) returns (l: seq<string>)
    ensures l == Sorted(s)
  {
    l := [];
    var todo := s;
    while todo != {}
      invariant todo <= s
      invariant Sorted(s) == l + Sorted(todo)
    {
      LeastOf(todo);
      SortedLists(todo);
      ghost var first := Sorted(todo)[0];
      LeastIsFirst(todo, first);
      var m :| m in todo && forall x :: x in todo ==> Le(m, x);
      LeAntisymmetric(m, first);
      l := l + [m];
      todo := todo - {m};
    }
  }

  // ----- sorting a list

  function Insert(x: string, l: seq<string>): seq<string> {
    if l == [] then [x] else if Le(x, l[0]) then [x] + l else [l[0]] + Insert(x, l[1..])
  }

  /** A sort of a list, repeats kept. */
  function SortList(l: seq<string>): seq<string> {
    if l == [] then [] else Insert(l[0], SortList(l[1..]))
  }

  lemma InsertFront(x: string, l: seq<string>)
    requires Ascending(l) && l != [] && Le(x, l[0])
    ensures Ascending([x] + l)
  {
    hide Le;
    var r := [x] + l;
    forall i, j | 0 <= i < j < |r|
      ensures Le(r[i], r[j])
    {
      if i == 0 && j > 1 {
        LeTransitive(x, l[0], l[j - 1]);
      }
    }
  }

  lemma InsertBehind(x: string, first: string, rest: seq<string>, t: seq<string>)
    requires Ascending([first] + rest) && Ascending(t) && multiset(t) == multiset{x} + multiset(rest) && Le(first, x)
    ensures Ascending([first] + t)
  {
    hide Le;
    forall j | 0 <= j < |t|
      ensures Le(first, t[j])
    {
      assert t[j] in multiset(t);
      if t[j] != x {
        var k :| 0 <= k < |rest| && rest[k] == t[j];
        assert ([first] + rest)[k + 1] == t[j] && ([first] + rest)[0] == first;
      }
    }
    AscendingFrom(first, t);
  }

  lemma {:induction false} InsertKeeps(x: string, l: seq<string>)
    requires Ascending(l)
    ensures Ascending(Insert(x, l)) && multiset(Insert(x, l)) == multiset{x} + multiset(l)
  {
    hide Le, Ascending;
    InsertBase(x);
    if l != [] {
      var first, rest := l[0], l[1..];
      assert l == [first] + rest;
      if Le(x, first) {
        InsertFront(x, l);
      } else {
        LeTotal(x, first);
        RestAscends(first, rest);
        InsertKeeps(x, rest);
        InsertBehind(x, first, rest, Insert(x, rest));
      }
    }
  }

  lemma InsertBase(x: string)
    ensures Ascending(Insert(x, []))
  {}

  lemma RestAscends(first: string, rest: seq<string>)
    requires Ascending([first] + rest)
    ensures Ascending(rest)
  {
    hide Le;
    var l := [first] + rest;
    assert forall i :: 0 <= i < |rest| ==> rest[i] == l[i + 1];
  }

  lemma AscendingFrom(x: string, t: seq<string>)
    requires Ascending(t) && forall j :: 0 <= j < |t| ==> Le(x, t[j])
    ensures Ascending([x] + t)
  {
    hide Le;
    var r := [x] + t;
    assert forall j :: 0 < j < |r| ==> r[j] == t[j - 1];
  }

  lemma {:induction false} SortListSorts(l: seq<string>)
    ensures Ascending(SortList(l)) && multiset(SortList(l)) == multiset(l)
  {
    if l != [] {
      SortListSorts(l[1..]);
      InsertKeeps(l[0], SortList(l[1..]));
      assert l == [l[0]] + l[1..];
    }
  }

  /** A list in ascending order is its own sort. */
  lemma {:induction false} SortListFixes(l: seq<string>)
    requires Ascending(l)
    ensures SortList(l) == l
  {
    if l != [] {
      SortListFixes(l[1..]);
      if |l| > 1 {
        assert Le(l[0], l[1..][0]);
      }
    }
  }
}
