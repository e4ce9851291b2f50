/** What the percent-encoding of a text looks like, character by character. */
module EncodedText {
  import opened PercentEncoding

  // ----- the alphabet, the hex digits and the octets, written out

  predicate Unreserved(c: char) {
    || 'a' <= c <= 'z' || 'A' <= c <= 'Z' || '0' <= c <= '9'
    || c == '-' || c == '_' || c == '.' || c == '*'
  }

  /** d is the upper-case hexadecimal digit of n. */
  predicate Spells(d: char, n: int) {
    if n < 10 then '0' <= d <= '9' && d as int == 48 + n else 'A' <= d <= 'F' && d as int == 55 + n
  }

  /** The six bits of a continuation octet. */
  function Six(b: Octet): int {
    var n: int := b;
    n - 0x80
  }

  /** One octet leads, the others carry six bits each, as in section 3 of RFC 3629. */
  predicate Utf8Of(bs: seq<Octet>, n: int) {
    && bs != []
    && (forall k :: 0 < k < |bs| ==> 0x80 <= bs[k] < 0xC0)
    && var lead: int := bs[0];
       if n < 0x80 then |bs| == 1 && lead == n
       else if n < 0x800 then |bs| == 2 && n == (lead - 0xC0) * 64 + Six(bs[1])
       else if n < 0x10000 then |bs| == 3 && n == (lead - 0xE0) * 4096 + Six(bs[1]) * 64 + Six(bs[2])
       else |bs| == 4 && n == (lead - 0xF0) * 262144 + Six(bs[1]) * 4096 + Six(bs[2]) * 64 + Six(bs[3])
  }

  /** t is one escape for each octet, in order. */
  predicate Escapes(t: string, bs: seq<Octet>) {
    |t| == 3 * |bs| && forall k :: 0 <= k < |bs| ==> EscapeAt(t, k, bs[k])
  }

  predicate EscapeAt(t: string, k: nat, b: Octet)
    requires 3 * k + 2 < |t|
  {
    t[3 * k] == '%' && Spells(t[3 * k + 1], b / 16) && Spells(t[3 * k + 2], b % 16)
  }

  // ----- the encoder

  lemma {:induction false} EncConcat(a: string, b: string)
    ensures Enc(a + b) == Enc(a) + Enc(b)
  {
    hide Enc, EncChar;
    if a == "" {
      assert a + b == b;
      EncOfNothing();
    } else {
      EncFirst(a);
      EncFirst(a + b);
      assert (a + b)[1..] == a[1..] + b;
      EncConcat(a[1..], b);
    }
  }

  lemma EncOfNothing()
    ensures Enc("") == ""
  {}

  lemma EncSingle(c: char)
    ensures Enc([c]) == EncChar(c)
  {
    EncFirst([c]);
    assert [c][1..] == "";
  }

  lemma HexSpells(n: int)
    requires 0 <= n < 16
    ensures Spells(HEX[n], n)
  {
    assert HEX[n] == "0123456789ABCDEF"[n];
  }

  lemma EscapesMore(t: string, bs: seq<Octet>, high: char, low: char, b: Octet)
    requires Escapes(t, bs) && Spells(high, b / 16) && Spells(low, b % 16)
    ensures Escapes(['%', high, low] + t, [b] + bs)
  {
    hide Spells;
    var u, cs := ['%', high, low] + t, [b] + bs;
    assert EscapeAt(u, 0, b);
    forall k | 0 < k < |cs|
      ensures EscapeAt(u, k, cs[k])
    {
      assert EscapeAt(t, k - 1, bs[k - 1]);
    }
  }

  lemma {:induction false} OctetsEscaped(bs: seq<Octet>)
    ensures Escapes(EncodeOctets(bs), bs)
  {
    hide Spells, EscapeAt;
    if bs != [] {
      OctetsEscaped(bs[1..]);
      HexSpells(bs[0] / 16);
      HexSpells(bs[0] % 16);
      EscapesMore(EncodeOctets(bs[1..]), bs[1..], HEX[bs[0] / 16], HEX[bs[0] % 16], bs[0]);
      assert bs == [bs[0]] + bs[1..];
    }
    hide Escapes;
  }

  lemma Utf8IsUtf8(c: char)
    ensures Utf8Of(Utf8(c), c as int)
  {
    Base64Digits(c as int);
  }

  /** A character of the alphabet stays; any other one becomes an escape for each octet of its
      UTF-8 form. Together with EncConcat this is the whole encoder. */
  lemma EncOfChar(c: char) returns (bs: seq<Octet>)
    ensures Utf8Of(bs, c as int)
    ensures if Unreserved(c) then Enc([c]) == [c] else Escapes(Enc([c]), bs)
  {
    bs := Utf8(c);
    EncSingle(c);
    Utf8IsUtf8(c);
    OctetsEscaped(bs);
    hide Escapes, Utf8Of, Utf8, EncodeOctets, Enc;
  }

  /** Exactly the texts over the alphabet are left alone. */
  lemma {:induction false} EncKeeps(s: string)
    ensures Enc(s) == s <==> forall i :: 0 <= i < |s| ==> Unreserved(s[i])
    ensures |Enc(s)| >= |s|
  {
    if s != "" {
      var first, rest := [s[0]], s[1..];
      assert s == first + rest;
      EncConcat(first, rest);
      EncKeeps(rest);
      var bs := EncOfChar(s[0]);
      hide Enc, Utf8Of, EscapeAt, Unreserved;
      assert forall i :: 0 < i < |s| ==> s[i] == rest[i - 1];
      if Unreserved(s[0]) {
        assert Enc(s) == first + Enc(rest);
        assert Enc(s)[1..] == Enc(rest);
      } else {
        assert |Enc(s)| > |s| by {
          assert |bs| > 0 by { LeadOctet(bs, s[0] as int); }
        }
      }
    }
  }

  lemma LeadOctet(bs: seq<Octet>, n: int)
    requires Utf8Of(bs, n)
    ensures bs != []
  {}

  // ----- one package URL

  /** The URL of an ordinary artifact: points, dashes and digits stay as they are. */
  lemma PurlOfArtifact()
    ensures Purl("org.apache.activemq", "artemis-jakarta-client-all", "2.57.0") ==
            "pkg:maven/" + "org.apache.activemq" + "/" + "artemis-jakarta-client-all" + "@" + "2.57.0"
  {
    hide Enc;
    KeepsGroup();
    KeepsArtifact();
    KeepsVersion();
  }

  lemma KeepsGroup()
    ensures Enc("org.apache.activemq") == "org.apache.activemq"
  {
    hide Enc;
    EncKeeps("org.apache.activemq");
  }

  lemma KeepsArtifact()
    ensures Enc("artemis-jakarta-client-all") == "artemis-jakarta-client-all"
  {
    hide Enc;
    EncKeeps("artemis-jakarta-client-all");
  }

  lemma KeepsVersion()
    ensures Enc("2.57.0") == "2.57.0"
  {
    hide Enc;
    EncKeeps("2.57.0");
  }
}
