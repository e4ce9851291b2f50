/** What a printed document shows: a word occurs in the text of a node exactly if some key or
    scalar of the node holds it. */
module PrintedDocuments {
  import opened Text
  import opened KameletDocuments

  /** Some key, text or scalar of the node, at any depth, contains the word. */
  ghost predicate Holds(n: Node, word: string) {
    match n
    case Null => Contains("null", word)
    case Str(s) => Contains(s, word)
    case Scalar(text) => Contains(text, word)
    case List(items) => exists i :: 0 <= i < |items| && Holds(items[i], word)
    case Map(entries) =>
      exists i :: 0 <= i < |entries| && (Contains(entries[i].key, word) || Holds(entries[i].value, word))
  }

  /** No character of the word is one that lists and maps are punctuated with. */
  predicate Unpunctuated(word: string) {
    word != "" && forall i :: 0 <= i < |word| ==> word[i] !in {'=', ',', ' ', '[', ']', '{', '}'}
  }

  lemma OccursMeaning(s: string, word: string, i: nat)
    requires OccursAt(s, word, i)
    ensures forall p :: i <= p < i + |word| ==> s[p] == word[p - i] && s[p] in word
  {
    assert forall p :: i <= p < i + |word| ==> s[p] == s[i..i + |word|][p - i];
  }

  lemma OccursInLonger(a: string, d: char, b: string, word: string, i: nat)
    ensures OccursAt(a, word, i) ==> OccursAt(a + ([d] + b), word, i)
    ensures OccursAt(b, word, i) ==> OccursAt(a + ([d] + b), word, |a| + 1 + i)
  {
    var s := a + ([d] + b);
    if OccursAt(a, word, i) {
      assert s[i..i + |word|] == a[i..i + |word|];
    }
    if OccursAt(b, word, i) {
      assert s[|a| + 1 + i..|a| + 1 + i + |word|] == b[i..i + |word|];
    }
  }

  /** A word without d stands on one side of it. */
  lemma OccursInPart(a: string, d: char, b: string, word: string, i: nat)
    requires word != "" && d !in word && OccursAt(a + ([d] + b), word, i)
    ensures OccursAt(a, word, i) || (i > |a| && OccursAt(b, word, i - |a| - 1))
  {
    var s := a + ([d] + b);
    assert s[|a|] == d;
    OccursMeaning(s, word, i);
    if i + |word| <= |a| {
      assert a[i..i + |word|] == s[i..i + |word|];
    } else if i <= |a| {
      assert false;
    } else {
      var j := i - |a| - 1;
      assert b[j..j + |word|] == s[i..i + |word|];
    }
  }

  lemma ContainsBoth(a: string, d: char, b: string, word: string)
    requires word != "" && d !in word
    ensures Contains(a + ([d] + b), word) <==> Contains(a, word) || Contains(b, word)
  {
    var s := a + ([d] + b);
    if i: nat :| i <= |a| && OccursAt(a, word, i) {
      OccursInLonger(a, d, b, word, i);
    }
    if i: nat :| i <= |b| && OccursAt(b, word, i) {
      OccursInLonger(a, d, b, word, i);
    }
    if i: nat :| i <= |s| && OccursAt(s, word, i) {
      OccursInPart(a, d, b, word, i);
      InRange(a, word, i);
      InRange(b, word, i - |a| - 1);
    }
    hide OccursAt;
  }

  lemma InRange(s: string, word: string, i: int)
    ensures i >= 0 && OccursAt(s, word, i) ==> i <= |s|
  {}

  lemma ContainsNothing(word: string)
    requires word != ""
    ensures !Contains("", word)
  {}

  lemma ContainsBetween(open: char, a: string, close: char, word: string)
    requires word != "" && open !in word && close !in word
    ensures Contains([open] + (a + [close]), word) <==> Contains(a, word)
  {
    hide Contains;
    assert [] + ([open] + (a + [close])) == [open] + (a + [close]);
    assert a + ([close] + []) == a + [close];
    ContainsBoth("", open, a + [close], word);
    ContainsBoth(a, close, "", word);
    ContainsNothing(word);
  }

  lemma {:induction false} ShownExactly(n: Node, word: string)
    requires Unpunctuated(word)
    ensures Contains(ToString(n), word) <==> Holds(n, word)
    decreases n
  {
    match n
    case List(items) =>
      ItemsShown(items, word);
      ContainsBetween('[', JoinItems(items), ']', word);
      assert "[" + JoinItems(items) + "]" == ['['] + (JoinItems(items) + [']']);
    case Map(entries) =>
      EntriesShown(entries, word);
      ContainsBetween('{', JoinEntries(entries), '}', word);
      assert "{" + JoinEntries(entries) + "}" == ['{'] + (JoinEntries(entries) + ['}']);
    case _ =>
  }

  lemma {:induction false} ItemsShown(items: seq<Node>, word: string)
    requires Unpunctuated(word)
    ensures Contains(JoinItems(items), word) <==> exists i :: 0 <= i < |items| && Holds(items[i], word)
    decreases items
  {
    if items == [] {
      ContainsNothing(word);
    } else {
      ShownExactly(items[0], word);
      if |items| == 1 {
        assert JoinItems(items) == ToString(items[0]) + "" == ToString(items[0]);
      } else {
        ItemsShown(items[1..], word);
        CommaBetween(ToString(items[0]), JoinItems(items[1..]), word);
        assert forall i :: 0 < i < |items| ==> items[i] == items[1..][i - 1];
      }
    }
    hide Holds, Contains, ToString;
  }

  lemma CommaBetween(a: string, b: string, word: string)
    requires Unpunctuated(word)
    ensures Contains(a + (", " + b), word) <==> Contains(a, word) || Contains(b, word)
  {
    hide Contains;
    assert a + (", " + b) == a + ([','] + ([] + ([' '] + b)));
    ContainsBoth(a, ',', [] + ([' '] + b), word);
    ContainsBoth("", ' ', b, word);
    ContainsNothing(word);
  }

  lemma {:induction false} EntriesShown(entries: seq<Entry>, word: string)
    requires Unpunctuated(word)
    ensures Contains(JoinEntries(entries), word) <==>
            exists i :: 0 <= i < |entries| && (Contains(entries[i].key, word) || Holds(entries[i].value, word))
    decreases entries
  {
    if entries == [] {
      ContainsNothing(word);
    } else {
      var key, text := entries[0].key, ToString(entries[0].value);
      ShownExactly(entries[0].value, word);
      ContainsBoth(key, '=', text, word);
      assert key + "=" + text == key + (['='] + text);
      if |entries| == 1 {
        assert JoinEntries(entries) == key + "=" + text + "" == key + "=" + text;
      } else {
        EntriesShown(entries[1..], word);
        CommaBetween(key + "=" + text, JoinEntries(entries[1..]), word);
        assert JoinEntries(entries) == (key + "=" + text) + (", " + JoinEntries(entries[1..]));
        assert forall i :: 0 < i < |entries| ==> entries[i] == entries[1..][i - 1];
      }
    }
    hide Holds, Contains, ToString;
  }

  lemma PrintedEntry(e: Entry, rest: seq<Entry>)
    ensures JoinEntries([e] + rest) ==
            e.key + "=" + ToString(e.value) + if rest == [] then "" else ", " + JoinEntries(rest)
  {
    assert ([e] + rest)[1..] == rest;
  }

  lemma PrintedItem(n: Node, rest: seq<Node>)
    ensures JoinItems([n] + rest) == ToString(n) + if rest == [] then "" else ", " + JoinItems(rest)
  {
    assert ([n] + rest)[1..] == rest;
  }

  /** How a document prints: maps in braces, lists in brackets, null by name. */
  lemma PrintedForm(a: string, b: string, x: string, y: string)
    ensures ToString(Null) == "null" && ToString(Str(x)) == x && ToString(Scalar(y)) == y
    ensures ToString(List([])) == "[]" && ToString(Map([])) == "{}"
    ensures ToString(List([Str(x), Scalar(y), Null])) == "[" + (x + (", " + (y + (", " + "null")))) + "]"
    ensures ToString(Map([Entry(a, Str(x)), Entry(b, List([Str(y)]))])) ==
            "{" + (a + "=" + x + (", " + (b + "=" + ("[" + y + "]")))) + "}"
  {
    PrintedItem(Null, []);
    PrintedItem(Scalar(y), [Null]);
    PrintedItem(Str(x), [Scalar(y), Null]);
    PrintedItem(Str(y), []);
    assert [Str(x)] + ([Scalar(y)] + ([Null] + [])) == [Str(x), Scalar(y), Null];
    assert [Scalar(y)] + ([Null] + []) == [Scalar(y), Null] && [Null] + [] == [Null] && [Str(y)] + [] == [Str(y)];
    var e, f := Entry(a, Str(x)), Entry(b, List([Str(y)]));
    PrintedEntry(f, []);
    PrintedEntry(e, [f]);
    assert [f] + [] == [f] && [e] + [f] == [e, f];
    assert ToString(List([Str(y)])) == "[" + y + "]";
  }
}
