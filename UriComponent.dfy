/** ECMA-262 `encodeURIComponent`, which percent-encodes the UTF-8 bytes of
    every character outside the unreserved set of section 2.3 of RFC 3986
    and `!'()*` (section 2.1 of RFC 3986 gives the `%XX` form), and its
    inverse `decodeURIComponent`, used here as the reference that the
    encoding loses nothing. */
module UriComponent {
  import opened Wrappers

  type Byte = b: int | 0 <= b < 256
  type Nibble = n: int | 0 <= n < 16

  /** The characters `encodeURIComponent` leaves as they are. */
  predicate IsUnreserved(c: char) {
    || ('A' <= c <= 'Z') || ('a' <= c <= 'z') || ('0' <= c <= '9')
    || c == '-' || c == '_' || c == '.' || c == '!' || c == '~'
    || c == '*' || c == '\'' || c == '(' || c == ')'
  }

  /** An upper-case hexadecimal digit, as `encodeURIComponent` writes them. */
  function HexDigit(n: Nibble): (c: char)
    ensures IsUnreserved(c) && HexValue(c) == Some(n)
  {
    if n < 10 then ('0' as int + n) as char else ('A' as int + n - 10) as char
  }

  /** The value of a hexadecimal digit of either case. */
  function HexValue(c: char): Option<Nibble> {
    if '0' <= c <= '9' then Some(c as int - '0' as int)
    else if 'A' <= c <= 'F' then Some(c as int - 'A' as int + 10)
    else if 'a' <= c <= 'f' then Some(c as int - 'a' as int + 10)
    else None
  }

  /** The UTF-8 encoding of one Unicode scalar value. */
  function Utf8(c: char): seq<Byte> {
    var cp := c as int;
    if cp < 0x80 then [cp]
    else if cp < 0x800 then [0xC0 + cp / 64, 0x80 + cp % 64]
    else if cp < 0x10000 then [0xE0 + cp / 4096, 0x80 + (cp / 64) % 64, 0x80 + cp % 64]
    else [0xF0 + cp / 262144, 0x80 + (cp / 4096) % 64, 0x80 + (cp / 64) % 64, 0x80 + cp % 64]
  }

  function PercentByte(b: Byte): string {
    ['%', HexDigit(b / 16), HexDigit(b % 16)]
  }

  function PercentBytes(bs: seq<Byte>): (r: string)
    ensures |r| == 3 * |bs|
  {
    if bs == [] then [] else PercentByte(bs[0]) + PercentBytes(bs[1..])
  }

  function EncodeChar(c: char): (r: string)
    ensures |r| > 0
  {
    if IsUnreserved(c) then [c] else PercentBytes(Utf8(c))
  }

  predicate EncodedAlphabet(s: string) {
    forall i | 0 <= i < |s| :: IsUnreserved(s[i]) || s[i] == '%'
  }

  lemma {:induction false} PercentBytesAlphabet(bs: seq<Byte>)
    ensures EncodedAlphabet(PercentBytes(bs))
  {
    if bs != [] {
      PercentBytesAlphabet(bs[1..]);
      var x, y := PercentByte(bs[0]), PercentBytes(bs[1..]);
      assert forall i | |x| <= i < |x + y| :: (x + y)[i] == y[i - |x|];
    }
  }

  /** `encodeURIComponent(s)`: one UTF-8 escape or one unreserved
      character per input character, so never shorter than the input. */
  function Encode(s: string): (r: string)
    ensures |s| <= |r|
  {
    if s == [] then [] else EncodeChar(s[0]) + Encode(s[1..])
  }

  /** Every character of an encoding is unreserved or the `%` of an escape,
      so it never contains a query or fragment delimiter. */
  lemma {:induction false} EncodeAlphabet(s: string)
    ensures forall i | 0 <= i < |Encode(s)| :: IsUnreserved(Encode(s)[i]) || Encode(s)[i] == '%'
  {
    if s != [] {
      EncodeAlphabet(s[1..]);
      if !IsUnreserved(s[0]) {
        PercentBytesAlphabet(Utf8(s[0]));
      }
      var x, y := EncodeChar(s[0]), Encode(s[1..]);
      assert forall i | |x| <= i < |x + y| :: (x + y)[i] == y[i - |x|];
    }
  }

  /** The byte written as `%XX` at index `i` of `s`, if there is one. */
  function ByteAt(s: string, i: nat): (r: Option<Byte>)
    ensures r.Some? ==> i + 3 <= |s|
  {
    if i + 3 <= |s| && s[i] == '%' then
      match (HexValue(s[i + 1]), HexValue(s[i + 2]))
      case (Some(hi), Some(lo)) => var b: Byte := (hi as int) * 16 + (lo as int); Some(b)
      case _ => None
    else None
  }

  /** The six payload bits of a UTF-8 continuation byte escaped at index `i`. */
  function ContinuationAt(s: string, i: nat): (r: Option<int>)
    ensures r.Some? ==> i + 3 <= |s| && 0 <= r.value < 64
  {
    var b :- ByteAt(s, i);
    if 0x80 <= b < 0xC0 then Some(b - 0x80) else None
  }

  /** Decodes the escaped UTF-8 sequence at the start of `s` into one
      character and the number of characters consumed; rejects malformed,
      overlong and surrogate sequences as `decodeURIComponent` does. */
  function DecodeEscape(s: string): (r: Option<(char, nat)>)
    ensures r.Some? ==> 0 < r.value.1 <= |s|
  {
    var b0 :- ByteAt(s, 0);
    if b0 < 0x80 then Some((b0 as char, 3))
    else if 0xC0 <= b0 < 0xE0 then
      var c1 :- ContinuationAt(s, 3);
      var cp := (b0 - 0xC0) * 64 + c1;
      if cp < 0x80 then None else Some((cp as char, 6))
    else if 0xE0 <= b0 < 0xF0 then
      var c1 :- ContinuationAt(s, 3);
      var c2 :- ContinuationAt(s, 6);
      var cp := ((b0 - 0xE0) * 64 + c1) * 64 + c2;
      if cp < 0x800 || (0xD800 <= cp < 0xE000) then None else Some((cp as char, 9))
    else if 0xF0 <= b0 < 0xF8 then
      var c1 :- ContinuationAt(s, 3);
      var c2 :- ContinuationAt(s, 6);
      var c3 :- ContinuationAt(s, 9);
      var cp := (((b0 - 0xF0) * 64 + c1) * 64 + c2) * 64 + c3;
      if cp < 0x10000 || 0x110000 <= cp then None else Some((cp as char, 12))
    else None
  }

  /** `decodeURIComponent(s)`; `None` where it would throw `URIError`. */
  function Decode(s: string): Option<string>
    decreases |s|
  {
    if s == [] then Some([])
    else if s[0] != '%' then
      var rest :- Decode(s[1..]);
      Some([s[0]] + rest)
    else
      var (c, n) :- DecodeEscape(s);
      var rest :- Decode(s[n..]);
      Some([c] + rest)
  }

  lemma ByteAtShift(x: string, y: string, i: nat)
    ensures ByteAt(x + y, |x| + i) == ByteAt(y, i)
  {
    if i + 3 <= |y| {
      assert (x + y)[|x| + i] == y[i];
      assert (x + y)[|x| + i + 1] == y[i + 1];
      assert (x + y)[|x| + i + 2] == y[i + 2];
    }
  }

  lemma {:induction false} ByteAtPercentBytes(bs: seq<Byte>, t: string, k: nat)
    requires k < |bs|
    ensures ByteAt(PercentBytes(bs) + t, 3 * k) == Some(bs[k])
  {
    var head := PercentByte(bs[0]);
    assert PercentBytes(bs) + t == head + (PercentBytes(bs[1..]) + t);
    if k == 0 {
      var u := PercentBytes(bs) + t;
      assert u[0] == '%' && u[1] == HexDigit(bs[0] / 16) && u[2] == HexDigit(bs[0] % 16);
    } else {
      ByteAtPercentBytes(bs[1..], t, k - 1);
      ByteAtShift(head, PercentBytes(bs[1..]) + t, 3 * (k - 1));
    }
  }

  /** An escaped character decodes back to itself, consuming its escape. */
  lemma DecodeEscapeOfEncoded(c: char, t: string)
    requires !IsUnreserved(c)
    ensures DecodeEscape(EncodeChar(c) + t) == Some((c, |EncodeChar(c)|))
  {
    var bs, u := Utf8(c), EncodeChar(c) + t;
    forall k | 0 <= k < |bs| ensures ByteAt(u, 3 * k) == Some(bs[k]) {
      ByteAtPercentBytes(bs, t, k);
    }
    var cp := c as int;
    if cp < 0x80 {
      assert ByteAt(u, 0) == Some(cp);
    } else if cp < 0x800 {
      DecodeTwo(u, c);
    } else if cp < 0x10000 {
      DecodeThree(u, c);
    } else {
      DecodeFour(u, c);
    }
  }

  lemma DecodeTwo(u: string, c: char)
    requires 0x80 <= c as int < 0x800
    requires ByteAt(u, 0) == Some(Utf8(c)[0]) && ByteAt(u, 3) == Some(Utf8(c)[1])
    ensures DecodeEscape(u) == Some((c, 6))
  {
    var cp := c as int;
    assert ContinuationAt(u, 3) == Some(cp % 64);
    assert (cp / 64) * 64 + cp % 64 == cp;
  }

  lemma DecodeThree(u: string, c: char)
    requires 0x800 <= c as int < 0x10000
    requires ByteAt(u, 0) == Some(Utf8(c)[0]) && ByteAt(u, 3) == Some(Utf8(c)[1])
    requires ByteAt(u, 6) == Some(Utf8(c)[2])
    ensures DecodeEscape(u) == Some((c, 9))
  {
    var cp := c as int;
    assert ContinuationAt(u, 3) == Some((cp / 64) % 64);
    assert ContinuationAt(u, 6) == Some(cp % 64);
    Split3(cp);
  }

  lemma DecodeFour(u: string, c: char)
    requires 0x10000 <= c as int
    requires ByteAt(u, 0) == Some(Utf8(c)[0]) && ByteAt(u, 3) == Some(Utf8(c)[1])
    requires ByteAt(u, 6) == Some(Utf8(c)[2]) && ByteAt(u, 9) == Some(Utf8(c)[3])
    ensures DecodeEscape(u) == Some((c, 12))
  {
    var cp := c as int;
    assert ContinuationAt(u, 3) == Some((cp / 4096) % 64);
    assert ContinuationAt(u, 6) == Some((cp / 64) % 64);
    assert ContinuationAt(u, 9) == Some(cp % 64);
    Split4(cp);
  }

  lemma Split3(cp: nat)
    requires cp < 0x10000
    ensures ((cp / 4096) * 64 + (cp / 64) % 64) * 64 + cp % 64 == cp
  {
    var q := cp / 64;
    assert q / 64 == cp / 4096;
  }

  lemma Split4(cp: nat)
    ensures (((cp / 262144) * 64 + (cp / 4096) % 64) * 64 + (cp / 64) % 64) * 64 + cp % 64 == cp
  {
    var q := cp / 64;
    var q2 := q / 64;
    assert q2 == cp / 4096;
    assert q2 / 64 == cp / 262144;
  }

  lemma DecodeUnreservedStep(c: char, y: string, rest: string)
    requires IsUnreserved(c) && Decode(y) == Some(rest)
    ensures Decode([c] + y) == Some([c] + rest)
  {
    assert ([c] + y)[1..] == y;
  }

  lemma DecodeEscapedStep(c: char, y: string, rest: string)
    requires !IsUnreserved(c) && Decode(y) == Some(rest)
    ensures Decode(EncodeChar(c) + y) == Some([c] + rest)
  {
    var x, bs := EncodeChar(c), Utf8(c);
    assert x == PercentByte(bs[0]) + PercentBytes(bs[1..]);
    assert (x + y)[0] == '%';
    DecodeEscapeOfEncoded(c, y);
    assert (x + y)[|x|..] == y;
  }

  /** Round trip: `decodeURIComponent(encodeURIComponent(s)) == s`. */
  lemma {:induction false} DecodeEncode(s: string)
    ensures Decode(Encode(s)) == Some(s)
  {
    if s != [] {
      DecodeEncode(s[1..]);
      assert [s[0]] + s[1..] == s;
      if IsUnreserved(s[0]) {
        DecodeUnreservedStep(s[0], Encode(s[1..]), s[1..]);
      } else {
        DecodeEscapedStep(s[0], Encode(s[1..]), s[1..]);
      }
    }
  }

  /** Encoding works character by character. */
  lemma {:induction false} EncodeAppend(x: string, y: string)
    ensures Encode(x + y) == Encode(x) + Encode(y)
  {
    if x != [] {
      assert (x + y)[1..] == x[1..] + y;
      EncodeAppend(x[1..], y);
    } else {
      assert x + y == y;
    }
  }

  predicate AllUnreserved(s: string) {
    forall i | 0 <= i < |s| :: IsUnreserved(s[i])
  }

  /** A string of unreserved characters is its own encoding. */
  lemma {:induction false} EncodeUnreserved(s: string)
    requires AllUnreserved(s)
    ensures Encode(s) == s
  {
    if s != [] {
      EncodeUnreserved(s[1..]);
      assert [s[0]] + s[1..] == s;
    }
  }

  lemma EncodeSlash()
    ensures Encode("/") == "%2F"
  {
    assert Encode("/") == EncodeChar('/') + Encode([]);
  }

  lemma EncodeSchemeSeparator()
    ensures Encode("://") == "%3A%2F%2F"
  {
    EncodeSlash();
    assert Encode("://") == EncodeChar(':') + Encode("//");
    assert Encode("//") == EncodeChar('/') + Encode("/");
  }

  /** A URL `scheme://host/path` whose parts need no escaping encodes with
      only its `:` and all three `/` escaped. */
  lemma EncodeSimpleUrl(scheme: string, host: string, path: string)
    requires AllUnreserved(scheme) && AllUnreserved(host) && AllUnreserved(path)
    ensures Encode(scheme + "://" + host + "/" + path) == scheme + "%3A%2F%2F" + host + "%2F" + path
  {
    EncodeSlash();
    EncodeSchemeSeparator();
    EncodeUnreserved(scheme);
    EncodeUnreserved(host);
    EncodeUnreserved(path);
    EncodeAppend(scheme + "://" + host + "/", path);
    EncodeAppend(scheme + "://" + host, "/");
    EncodeAppend(scheme + "://", host);
    EncodeAppend(scheme, "://");
  }
}
