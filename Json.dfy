/** `JSON.stringify` of a header record: an object (section 4 of RFC 8259)
    whose members are string/string pairs (strings as in section 7 of
    RFC 8259, escaped as ECMA-262's QuoteJSONString does), written without
    whitespace in the record's key order. `ParseObject` reads that text
    back and is the reference that the serialisation loses nothing. */
module Json {
  import opened Wrappers
  import opened Headers
  import UriComponent

  /** A lower-case hexadecimal digit, as QuoteJSONString writes them. */
  function LowerHex(n: UriComponent.Nibble): (c: char)
    ensures UriComponent.HexValue(c) == Some(n)
  {
    if n < 10 then ('0' as int + n) as char else ('a' as int + n - 10) as char
  }

  function EscapeChar(c: char): (r: string)
    ensures |r| > 0
  {
    if c == '"' then ['\\', '"']
    else if c == '\\' then ['\\', '\\']
    else if c as int == 0x08 then ['\\', 'b']
    else if c == '\t' then ['\\', 't']
    else if c == '\n' then ['\\', 'n']
    else if c as int == 0x0C then ['\\', 'f']
    else if c == '\r' then ['\\', 'r']
    else if c as int < 0x20 then ['\\', 'u', '0', '0', LowerHex(c as int / 16), LowerHex(c as int % 16)]
    else [c]
  }

  function Escape(s: string): string {
    if s == [] then [] else EscapeChar(s[0]) + Escape(s[1..])
  }

  /** `JSON.stringify(s)` for a string `s`. */
  function Quote(s: string): string {
    "\"" + Escape(s) + "\""
  }

  function Member(e: (string, string)): string {
    Quote(e.0) + ":" + Quote(e.1)
  }

  function Members(h: Headers): string {
    if h == [] then ""
    else if |h| == 1 then Member(h[0])
    else Member(h[0]) + "," + Members(h[1..])
  }

  /** `JSON.stringify(h)` for a header record `h`. */
  function Stringify(h: Headers): string {
    "{" + Members(h) + "}"
  }

  /** Reads the escape sequence at the start of `s` (which starts with a
      backslash): the character it stands for and its length. */
  function UnescapeAt(s: string): (r: Option<(char, nat)>)
    ensures r.Some? ==> 0 < r.value.1 <= |s|
  {
    if |s| < 2 then None
    else if s[1] == '"' || s[1] == '\\' || s[1] == '/' then Some((s[1], 2))
    else if s[1] == 'b' then Some((0x08 as char, 2))
    else if s[1] == 't' then Some(('\t', 2))
    else if s[1] == 'n' then Some(('\n', 2))
    else if s[1] == 'f' then Some((0x0C as char, 2))
    else if s[1] == 'r' then Some(('\r', 2))
    else if s[1] == 'u' && |s| >= 6 then
      var d0 :- UriComponent.HexValue(s[2]);
      var d1 :- UriComponent.HexValue(s[3]);
      var d2 :- UriComponent.HexValue(s[4]);
      var d3 :- UriComponent.HexValue(s[5]);
      var cp := ((d0 as int * 16 + d1 as int) * 16 + d2 as int) * 16 + d3 as int;
      if 0xD800 <= cp < 0xE000 then None else Some((cp as char, 6))
    else None
  }

  /** Reads the rest of a string literal whose opening quote is already
      consumed: its contents and the text after the closing quote. */
  function ParseStringBody(s: string): Option<(string, string)>
    decreases |s|
  {
    if s == [] then None
    else if s[0] == '"' then Some(([], s[1..]))
    else if s[0] == '\\' then
      var (c, n) :- UnescapeAt(s);
      var (body, rest) :- ParseStringBody(s[n..]);
      Some(([c] + body, rest))
    else if s[0] as int < 0x20 then None
    else
      var (body, rest) :- ParseStringBody(s[1..]);
      Some(([s[0]] + body, rest))
  }

  function ParseString(s: string): (r: Option<(string, string)>)
    ensures r.Some? ==> |r.value.1| < |s|
  {
    if s != [] && s[0] == '"' then ParseStringBodyShrinks(s[1..]); ParseStringBody(s[1..]) else None
  }

  lemma {:induction false} ParseStringBodyShrinks(s: string)
    ensures ParseStringBody(s).Some? ==> |ParseStringBody(s).value.1| < |s|
    decreases |s|
  {
    if s != [] && s[0] != '"' {
      if s[0] == '\\' {
        match UnescapeAt(s)
        case Some((c, n)) => ParseStringBodyShrinks(s[n..]);
        case None =>
      } else {
        ParseStringBodyShrinks(s[1..]);
      }
    }
  }

  function ParseMember(s: string): (r: Option<((string, string), string)>)
    ensures r.Some? ==> |r.value.1| < |s|
  {
    var (k, rest) :- ParseString(s);
    if rest != [] && rest[0] == ':' then
      var (v, rest') :- ParseString(rest[1..]);
      Some(((k, v), rest'))
    else None
  }

  /** Reads `member (, member)* }` and the text after the closing brace. */
  function ParseMembers(s: string): Option<(Headers, string)>
    decreases |s|
  {
    var (e, rest) :- ParseMember(s);
    if rest != [] && rest[0] == ',' then
      var (es, rest') :- ParseMembers(rest[1..]);
      Some(([e] + es, rest'))
    else if rest != [] && rest[0] == '}' then Some(([e], rest[1..]))
    else None
  }

  /** `JSON.parse` of an object of string members, whole input consumed. */
  function ParseObject(s: string): Option<Headers> {
    if |s| >= 2 && s[0] == '{' && s[1] == '}' then
      if |s| == 2 then Some([]) else None
    else if s != [] && s[0] == '{' then
      var (h, rest) :- ParseMembers(s[1..]);
      if rest == [] then Some(h) else None
    else None
  }

  /** An escaped character reads back as itself. */
  lemma UnescapeOfEscaped(c: char, t: string)
    requires c == '"' || c == '\\' || c as int < 0x20
    ensures UnescapeAt(EscapeChar(c) + t) == Some((c, |EscapeChar(c)|))
  {
    var u := EscapeChar(c) + t;
    if c as int < 0x20 && c as int !in {0x08, 0x09, 0x0A, 0x0C, 0x0D} {
      assert u[1] == 'u' && u[2] == '0' && u[3] == '0';
      assert u[4] == LowerHex(c as int / 16) && u[5] == LowerHex(c as int % 16);
    }
  }

  /** Round trip for string literals (section 7 of RFC 8259). */
  lemma {:induction false} ParseQuoted(s: string, t: string)
    ensures ParseStringBody(Escape(s) + "\"" + t) == Some((s, t))
  {
    if s == [] {
      assert Escape(s) + "\"" + t == ['"'] + t;
    } else {
      var x, y := EscapeChar(s[0]), Escape(s[1..]) + "\"" + t;
      assert Escape(s) + "\"" + t == x + y;
      ParseQuoted(s[1..], t);
      assert [s[0]] + s[1..] == s;
      if s[0] == '"' || s[0] == '\\' || s[0] as int < 0x20 {
        UnescapeOfEscaped(s[0], y);
        assert (x + y)[0] == '\\';
        assert (x + y)[|x|..] == y;
      } else {
        assert (x + y)[1..] == y;
      }
    }
  }

  lemma ParseStringOfQuote(s: string, t: string)
    ensures ParseString(Quote(s) + t) == Some((s, t))
  {
    var u := Quote(s) + t;
    assert u[1..] == Escape(s) + "\"" + t;
    ParseQuoted(s, t);
  }

  lemma ParseMemberOf(e: (string, string), t: string)
    ensures ParseMember(Member(e) + t) == Some((e, t))
  {
    var rest := ":" + (Quote(e.1) + t);
    assert Member(e) + t == Quote(e.0) + rest;
    ParseStringOfQuote(e.0, rest);
    assert rest[0] == ':' && rest[1..] == Quote(e.1) + t;
    ParseStringOfQuote(e.1, t);
  }

  lemma ParseMembersLast(e: (string, string), t: string)
    ensures ParseMembers(Member(e) + "}" + t) == Some(([e], t))
  {
    assert Member(e) + "}" + t == Member(e) + ("}" + t);
    ParseMemberOf(e, "}" + t);
    assert ("}" + t)[1..] == t;
  }

  lemma ParseMembersNext(e: (string, string), rest: string, es: Headers, t: string)
    requires ParseMembers(rest) == Some((es, t))
    ensures ParseMembers(Member(e) + "," + rest) == Some(([e] + es, t))
  {
    assert Member(e) + "," + rest == Member(e) + ("," + rest);
    ParseMemberOf(e, "," + rest);
    assert ("," + rest)[1..] == rest;
  }

  lemma Regroup(x: string, m: string, t: string)
    ensures x + "," + m + "}" + t == x + "," + (m + "}" + t)
  {
  }

  lemma MembersCons(h: Headers, t: string)
    requires |h| >= 2
    ensures Members(h) + "}" + t == Member(h[0]) + "," + (Members(h[1..]) + "}" + t)
  {
    Regroup(Member(h[0]), Members(h[1..]), t);
  }

  lemma {:induction false} ParseMembersOf(h: Headers, t: string)
    requires h != []
    ensures ParseMembers(Members(h) + "}" + t) == Some((h, t))
  {
    if |h| == 1 {
      ParseMembersLast(h[0], t);
      assert [h[0]] == h;
    } else {
      ParseMembersOf(h[1..], t);
      ParseMembersNext(h[0], Members(h[1..]) + "}" + t, h[1..], t);
      MembersCons(h, t);
      assert [h[0]] + h[1..] == h;
    }
  }

  /** `JSON.parse(JSON.stringify(h))` gives back every entry of `h`, in order. */
  lemma ParseStringify(h: Headers)
    ensures ParseObject(Stringify(h)) == Some(h)
  {
    if h != [] {
      var u := Stringify(h);
      assert u == "{" + (Members(h) + "}" + "");
      ParseMembersOf(h, "");
      var m := Member(h[0]);
      assert m[0] == '"';
      if |h| == 1 {
        assert u[1] == m[0];
      } else {
        assert u[1] == (m + "," + Members(h[1..]))[0] == m[0];
      }
      assert u[1..] == Members(h) + "}" + "";
    }
  }
}
