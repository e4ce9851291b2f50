/** The percent-encoding that a package URL uses, and its decoding (sections 2.1 and 2.5 of
    RFC 3986, with UTF-8 as in section 3 of RFC 3629). */
module PercentEncoding {

  import opened Options

  type Octet = x: int | 0 <= x < 256

  // ----- UTF-8

  function Utf8(c: char): seq<Octet> {
    var n := c as int;
    if n < 0x80 then [n]
    else if n < 0x800 then [0xC0 + n / 64, 0x80 + n % 64]
    else if n < 0x10000 then [0xE0 + n / 4096, 0x80 + n / 64 % 64, 0x80 + n % 64]
    else [0xF0 + n / 262144, 0x80 + n / 4096 % 64, 0x80 + n / 64 % 64, 0x80 + n % 64]
  }

  predicate Tail(b: Octet) {
    0x80 <= b < 0xC0
  }

  /** The scalar value the first octets encode, and how many octets that takes. */
  function FirstScalar(bs: seq<Octet>): Option<(int, nat)> {
    if bs == [] then None
    else
      var b0: int := bs[0];
      if b0 < 0x80 then Some((b0, 1))
      else if 0xC0 <= b0 < 0xE0 && |bs| >= 2 && Tail(bs[1]) then Some(((b0 - 0xC0) * 64 + Low(bs[1]), 2))
      else if 0xE0 <= b0 < 0xF0 && |bs| >= 3 && Tail(bs[1]) && Tail(bs[2]) then
        Some(((b0 - 0xE0) * 4096 + Low(bs[1]) * 64 + Low(bs[2]), 3))
      else if 0xF0 <= b0 < 0xF8 && |bs| >= 4 && Tail(bs[1]) && Tail(bs[2]) && Tail(bs[3]) then
        Some(((b0 - 0xF0) * 262144 + Low(bs[1]) * 4096 + Low(bs[2]) * 64 + Low(bs[3]), 4))
      else None
  }

  /** The six bits a continuation octet carries. */
  function Low(b: Octet): int {
    var n: int := b;
    n - 0x80
  }

  predicate IsScalar(n: int) {
    0 <= n < 0xD800 || 0xE000 <= n < 0x110000
  }

  function DecodeUtf8(bs: seq<Octet>): Option<string>
    decreases |bs|
  {
    if bs == [] then Some("")
    else
      match FirstScalar(bs)
      case None => None
      case Some((n, len)) =>
        if !IsScalar(n) then None
        else
          match DecodeUtf8(bs[len..])
          case None => None
          case Some(rest) => Some([n as char] + rest)
  }

  lemma Base64Digits(n: int)
    requires 0 <= n
    ensures n / 4096 == n / 64 / 64 && n / 262144 == n / 4096 / 64
    ensures n == n / 64 * 64 + n % 64
    ensures n == n / 4096 * 4096 + n / 64 % 64 * 64 + n % 64
    ensures n == n / 262144 * 262144 + n / 4096 % 64 * 4096 + n / 64 % 64 * 64 + n % 64
  {}

  lemma FirstScalarOfUtf8(c: char, rest: seq<Octet>)
    ensures FirstScalar(Utf8(c) + rest) == Some((c as int, |Utf8(c)|))
  {
    var n, bs := c as int, Utf8(c) + rest;
    Base64Digits(n);
    assert forall i :: 0 <= i < |Utf8(c)| ==> bs[i] == Utf8(c)[i];
  }

  // ----- the encoder

  /** Characters the encoder leaves alone. */
  predicate Plain(c: char) {
    'a' <= c <= 'z' || 'A' <= c <= 'Z' || '0' <= c <= '9' || c == '-' || c == '_' || c == '.' || c == '*'
  }

  const HEX := "0123456789ABCDEF"

  function EncodeOctets(bs: seq<Octet>): string {
    if bs == [] then "" else ['%', HEX[bs[0] / 16], HEX[bs[0] % 16]] + EncodeOctets(bs[1..])
  }

  /** URLEncoder.encode in UTF-8, which is meant for forms: a blank becomes a plus. */
  function FormEncode(s: string): string {
    if s == "" then ""
    else
      (if Plain(s[0]) then [s[0]] else if s[0] == ' ' then "+" else EncodeOctets(Utf8(s[0])))
      + FormEncode(s[1..])
  }

  function ReplaceAll(s: string, c: char, with: string): string {
    if s == "" then "" else (if s[0] == c then with else [s[0]]) + ReplaceAll(s[1..], c, with)
  }

  function Enc(s: string): string {
    ReplaceAll(FormEncode(s), '+', "%20")
  }

  lemma {:induction false} ReplaceAllConcat(a: string, b: string, c: char, with: string)
    ensures ReplaceAll(a + b, c, with) == ReplaceAll(a, c, with) + ReplaceAll(b, c, with)
  {
    if a == "" {
      assert a + b == b;
    } else {
      assert (a + b)[1..] == a[1..] + b;
      ReplaceAllConcat(a[1..], b, c, with);
    }
  }

  lemma {:induction false} ReplaceAllAbsent(s: string, c: char, with: string)
    requires c !in s
    ensures ReplaceAll(s, c, with) == s
  {
    if s != "" {
      ReplaceAllAbsent(s[1..], c, with);
    }
  }

  predicate HexDigit(c: char) {
    '0' <= c <= '9' || 'A' <= c <= 'F'
  }

  lemma HexDigits(n: int)
    requires 0 <= n < 16
    ensures HexDigit(HEX[n]) && HexValue(HEX[n]) == Some(n)
  {
    assert HEX[n] == "0123456789ABCDEF"[n];
  }

  lemma {:induction false} EncodeOctetsPlain(bs: seq<Octet>)
    ensures forall i :: 0 <= i < |EncodeOctets(bs)| ==> EncodeOctets(bs)[i] == '%' || HexDigit(EncodeOctets(bs)[i])
  {
    if bs != [] {
      EncodeOctetsPlain(bs[1..]);
      HexDigits(bs[0] / 16);
      HexDigits(bs[0] % 16);
    }
  }

  /** What the encoder makes of one character: a blank takes the detour over the plus, and a
      plus of the input never does. */
  function EncChar(c: char): string {
    if Plain(c) then [c] else EncodeOctets(Utf8(c))
  }

  lemma EncFirst(s: string)
    requires s != ""
    ensures Enc(s) == EncChar(s[0]) + Enc(s[1..])
  {
    var head := if Plain(s[0]) then [s[0]] else if s[0] == ' ' then "+" else EncodeOctets(Utf8(s[0]));
    ReplaceAllConcat(head, FormEncode(s[1..]), '+', "%20");
    if s[0] == ' ' {
      assert ReplaceAll("+", '+', "%20") == "%20" + ReplaceAll("+"[1..], '+', "%20");
      assert EncodeOctets([32]) == ['%', HEX[2], HEX[0]] + EncodeOctets([32][1..]);
      assert HEX[2] == '2' && HEX[0] == '0';
    } else if !Plain(s[0]) {
      EncodeOctetsPlain(Utf8(s[0]));
      ReplaceAllAbsent(head, '+', "%20");
    } else {
      ReplaceAllAbsent(head, '+', "%20");
    }
  }

  /** The encoded text holds plain characters and escapes only. */
  lemma {:induction false} EncAlphabet(s: string)
    ensures forall i :: 0 <= i < |Enc(s)| ==> Enc(s)[i] == '%' || Plain(Enc(s)[i])
  {
    if s != "" {
      EncFirst(s);
      EncAlphabet(s[1..]);
      EncodeOctetsPlain(Utf8(s[0]));
    }
  }

  // ----- decoding

  function HexValue(c: char): Option<int> {
    if '0' <= c <= '9' then Some(c as int - '0' as int)
    else if 'A' <= c <= 'F' then Some(c as int - 'A' as int + 10)
    else None
  }

  /** Percent-decoding: escapes become octets, ASCII characters stand for themselves. */
  function Unescape(t: string): Option<seq<Octet>>
    decreases |t|
  {
    if t == "" then Some([])
    else if t[0] == '%' then
      if |t| < 3 || HexValue(t[1]).None? || HexValue(t[2]).None? then None
      else
        var octet := HexValue(t[1]).value * 16 + HexValue(t[2]).value;
        match Unescape(t[3..])
        case None => None
        case Some(rest) => Some([octet] + rest)
    else if t[0] as int >= 0x80 then None
    else
      match Unescape(t[1..])
      case None => None
      case Some(rest) => Some([t[0] as int] + rest)
  }

  function Decode(t: string): Option<string> {
    match Unescape(t)
    case None => None
    case Some(bs) => DecodeUtf8(bs)
  }

  lemma UnescapeHex(high: char, low: char, b: Octet, t: string)
    requires Unescape(t).Some? && HexValue(high) == Some(b / 16) && HexValue(low) == Some(b % 16)
    ensures Unescape(['%', high, low] + t) == Some([b] + Unescape(t).value)
  {
    hide HexValue;
    var u := ['%', high, low] + t;
    assert u[0] == '%' && u[1] == high && u[2] == low && u[3..] == t;
    assert b / 16 * 16 + b % 16 == b;
  }

  lemma UnescapeOne(b: Octet, t: string)
    requires Unescape(t).Some?
    ensures Unescape(['%', HEX[b / 16], HEX[b % 16]] + t) == Some([b] + Unescape(t).value)
  {
    hide Unescape, HexValue;
    HexDigits(b / 16);
    HexDigits(b % 16);
    UnescapeHex(HEX[b / 16], HEX[b % 16], b, t);
  }

  lemma UnescapeFirst(b: Octet, rest: string, t: string)
    requires Unescape(rest + t).Some?
    ensures Unescape(['%', HEX[b / 16], HEX[b % 16]] + rest + t) == Some([b] + Unescape(rest + t).value)
  {
    hide Unescape;
    var escape := ['%', HEX[b / 16], HEX[b % 16]];
    UnescapeOne(b, rest + t);
    assert escape + rest + t == escape + (rest + t);
  }

  lemma {:induction false} UnescapeOctets(bs: seq<Octet>, t: string)
    requires Unescape(t).Some?
    ensures Unescape(EncodeOctets(bs) + t) == Some(bs + Unescape(t).value)
  {
    hide Unescape;
    if bs == [] {
      assert EncodeOctets(bs) + t == t;
      assert bs + Unescape(t).value == Unescape(t).value;
    } else {
      UnescapeOctets(bs[1..], t);
      UnescapeFirst(bs[0], EncodeOctets(bs[1..]), t);
      assert [bs[0]] + (bs[1..] + Unescape(t).value) == bs + Unescape(t).value;
    }
  }

  function Utf8All(s: string): seq<Octet> {
    if s == "" then [] else Utf8(s[0]) + Utf8All(s[1..])
  }

  lemma {:induction false} UnescapeEnc(s: string)
    ensures Unescape(Enc(s)) == Some(Utf8All(s))
  {
    if s != "" {
      EncFirst(s);
      UnescapeEnc(s[1..]);
      if Plain(s[0]) {
        assert Enc(s)[1..] == Enc(s[1..]);
      } else {
        UnescapeOctets(Utf8(s[0]), Enc(s[1..]));
      }
    }
  }

  lemma {:induction false} DecodeUtf8All(s: string)
    ensures DecodeUtf8(Utf8All(s)) == Some(s)
  {
    if s != "" {
      DecodeUtf8All(s[1..]);
      FirstScalarOfUtf8(s[0], Utf8All(s[1..]));
      assert Utf8All(s)[|Utf8(s[0])|..] == Utf8All(s[1..]);
      assert s == [s[0]] + s[1..];
    }
  }

  /** Decoding undoes the encoding, for every string. */
  lemma DecodeEnc(s: string)
    ensures Decode(Enc(s)) == Some(s)
  {
    UnescapeEnc(s);
    DecodeUtf8All(s);
  }

  // ----- package URLs

  function Purl(group: string, artifact: string, version: string): string {
    "pkg:maven/" + Enc(group) + "/" + Enc(artifact) + "@" + Enc(version)
  }

  lemma SplitIsUnique(a: string, b: string, c: char, x: string, y: string)
    requires c !in a && c !in x && a + [c] + b == x + [c] + y
    ensures a == x && b == y
  {
    var t := a + [c] + b;
    assert t[|a|] == c && t[|x|] == c;
    assert |a| == |x|;
    assert a == t[..|a|] && x == t[..|x|];
    assert b == t[|a| + 1..] && y == t[|x| + 1..];
  }

  lemma SamePrefix(p: string, a: string, b: string)
    requires p + a == p + b
    ensures a == b
  {
    assert a == (p + a)[|p|..] && b == (p + b)[|p|..];
  }

  lemma EncIsInjective(a: string, b: string)
    requires Enc(a) == Enc(b)
    ensures a == b
  {
    DecodeEnc(a);
    DecodeEnc(b);
  }

  lemma EncHasNoDelimiter(s: string)
    ensures '/' !in Enc(s) && '@' !in Enc(s) && '+' !in Enc(s)
  {
    EncAlphabet(s);
  }

  lemma PurlShape(group: string, artifact: string, version: string)
    ensures Purl(group, artifact, version) ==
            "pkg:maven/" + (Enc(group) + ['/'] + (Enc(artifact) + ['@'] + Enc(version)))
  {
    hide Enc;
  }

  /** Different coordinates have different package URLs. */
  lemma PurlIsInjective(g: string, a: string, v: string, g': string, a': string, v': string)
    requires Purl(g, a, v) == Purl(g', a', v')
    ensures g == g' && a == a' && v == v'
  {
    hide Enc, Purl;
    PurlShape(g, a, v);
    PurlShape(g', a', v');
    EncHasNoDelimiter(g);
    EncHasNoDelimiter(g');
    EncHasNoDelimiter(a);
    EncHasNoDelimiter(a');
    var rest, rest' := Enc(a) + ['@'] + Enc(v), Enc(a') + ['@'] + Enc(v');
    SamePrefix("pkg:maven/", Enc(g) + ['/'] + rest, Enc(g') + ['/'] + rest');
    SplitIsUnique(Enc(g), rest, '/', Enc(g'), rest');
    SplitIsUnique(Enc(a), Enc(v), '@', Enc(a'), Enc(v'));
    EncIsInjective(g, g');
    EncIsInjective(a, a');
    EncIsInjective(v, v');
  }
}
