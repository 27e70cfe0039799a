/** String primitives the query-string builder of app/services/api.ts is made
    of: `String.prototype.split` on a one-character class, `Array.prototype.join`,
    and ECMAScript's `encodeURIComponent`. */
module UriText {

  predicate NoneOf(s: string, delims: set<char>) {
    forall i :: 0 <= i < |s| ==> s[i] !in delims
  }

  /** `s.split(/[D]/)` for a set D of single characters (and `s.split(c)` for
      D = {c}): the maximal D-free pieces between delimiters, empty pieces
      included; the empty string splits into one empty piece. */
  function SplitOn(s: string, delims: set<char>): (r: seq<string>)
    ensures |r| >= 1
    ensures forall i :: 0 <= i < |r| ==> NoneOf(r[i], delims)
  {
    if s == [] then [""]
    else
      var rest := SplitOn(s[1..], delims);
      if s[0] in delims then [""] + rest
      else [[s[0]] + rest[0]] + rest[1..]
  }

  /** `parts.join(sep)`. */
  function Join(parts: seq<string>, sep: string): string {
    if |parts| == 0 then ""
    else if |parts| == 1 then parts[0]
    else parts[0] + sep + Join(parts[1..], sep)
  }

  lemma {:induction false} SplitDelimiterFree(a: string, delims: set<char>)
    requires NoneOf(a, delims)
    ensures SplitOn(a, delims) == [a]
  {
    if a != [] {
      SplitDelimiterFree(a[1..], delims);
      assert [a[0]] + a[1..] == a;
    }
  }

  /** Splitting at a delimiter that follows a delimiter-free piece yields that piece first. */
  lemma {:induction false} SplitAfterPiece(a: string, c: char, b: string, delims: set<char>)
    requires NoneOf(a, delims) && c in delims
    ensures SplitOn(a + [c] + b, delims) == [a] + SplitOn(b, delims)
  {
    if a == [] {
      assert a + [c] + b == [c] + b;
      assert ([c] + b)[1..] == b;
    } else {
      SplitAfterPiece(a[1..], c, b, delims);
      assert (a + [c] + b)[1..] == a[1..] + [c] + b;
      assert [a[0]] + a[1..] == a;
    }
  }

  /** Splitting undoes joining with a delimiter, as long as no part contains one. */
  lemma {:induction false} SplitJoin(parts: seq<string>, c: char, delims: set<char>)
    requires |parts| >= 1 && c in delims
    requires forall i :: 0 <= i < |parts| ==> NoneOf(parts[i], delims)
    ensures SplitOn(Join(parts, [c]), delims) == parts
  {
    if |parts| == 1 {
      SplitDelimiterFree(parts[0], delims);
    } else {
      SplitJoin(parts[1..], c, delims);
      SplitAfterPiece(parts[0], c, Join(parts[1..], [c]), delims);
      assert [parts[0]] + parts[1..] == parts;
    }
  }

  /** Joining with a delimiter undoes splitting on that delimiter alone. */
  lemma {:induction false} JoinSplit(s: string, c: char)
    ensures Join(SplitOn(s, {c}), [c]) == s
  {
    if s != [] {
      JoinSplit(s[1..], c);
      var rest := SplitOn(s[1..], {c});
      if s[0] != c {
        if |rest| > 1 {
          assert ([[s[0]] + rest[0]] + rest[1..])[1..] == rest[1..];
          assert rest == [rest[0]] + rest[1..];
        }
      }
    }
  }

  // encodeURIComponent (ECMA-262, section 19.2.6.5): the characters of
  // uriUnreserved pass through; every other code point is written as its
  // UTF-8 bytes, each as '%' and two upper-case hexadecimal digits.

  predicate Unreserved(c: char) {
    ('a' <= c <= 'z') || ('A' <= c <= 'Z') || ('0' <= c <= '9')
    || c == '-' || c == '_' || c == '.' || c == '!' || c == '~'
    || c == '*' || c == '\'' || c == '(' || c == ')'
  }

  predicate UpperHex(c: char) {
    ('0' <= c <= '9') || ('A' <= c <= 'F')
  }

  /** A character that encodeURIComponent can emit. */
  predicate EncodedChar(c: char) {
    Unreserved(c) || c == '%' || UpperHex(c)
  }

  function HexDigit(n: int): (c: char)
    requires 0 <= n < 16
    ensures UpperHex(c)
  {
    if n < 10 then ('0' as int + n) as char else ('A' as int + n - 10) as char
  }

  function PercentBytes(bytes: seq<int>): (r: string)
    requires forall i :: 0 <= i < |bytes| ==> 0 <= bytes[i] < 256
    ensures |r| == 3 * |bytes|
    ensures forall i :: 0 <= i < |r| ==> r[i] == '%' || UpperHex(r[i])
  {
    if bytes == [] then []
    else ['%', HexDigit(bytes[0] / 16), HexDigit(bytes[0] % 16)] + PercentBytes(bytes[1..])
  }

  /** The UTF-8 encoding of a Unicode scalar value. */
  function Utf8(cp: int): (bytes: seq<int>)
    requires 0 <= cp < 0x11_0000
    ensures 1 <= |bytes| <= 4
    ensures forall i :: 0 <= i < |bytes| ==> 0 <= bytes[i] < 256
    ensures (cp < 0x80) == (|bytes| == 1)
  {
    if cp < 0x80 then [cp]
    else if cp < 0x800 then [0xC0 + cp / 0x40, 0x80 + cp % 0x40]
    else if cp < 0x1_0000 then [0xE0 + cp / 0x1000, 0x80 + (cp / 0x40) % 0x40, 0x80 + cp % 0x40]
    else [0xF0 + cp / 0x4_0000, 0x80 + (cp / 0x1000) % 0x40, 0x80 + (cp / 0x40) % 0x40, 0x80 + cp % 0x40]
  }

  function EncodeChar(c: char): (r: string)
    ensures forall i :: 0 <= i < |r| ==> EncodedChar(r[i])
  {
    if Unreserved(c) then [c] else PercentBytes(Utf8(c as int))
  }

  function EncodeURIComponent(s: string): (r: string)
    ensures |r| >= |s|
    ensures forall i :: 0 <= i < |r| ==> EncodedChar(r[i])
  {
    if s == [] then [] else EncodeChar(s[0]) + EncodeURIComponent(s[1..])
  }

  /** None of the characters that structure a URL query survives encoding. */
  lemma EncodedHasNoQueryDelimiters(s: string)
    ensures NoneOf(EncodeURIComponent(s), {'&', '=', '?', '#'})
  {
    var r := EncodeURIComponent(s);
    forall i | 0 <= i < |r| ensures r[i] !in {'&', '=', '?', '#'} {
      assert EncodedChar(r[i]);
    }
  }

  /** A string made only of unreserved characters is left as it is. */
  lemma {:induction false} EncodeUnreservedIdentity(s: string)
    requires forall i :: 0 <= i < |s| ==> Unreserved(s[i])
    ensures EncodeURIComponent(s) == s
  {
    if s != [] {
      EncodeUnreservedIdentity(s[1..]);
      assert [s[0]] + s[1..] == s;
    }
  }

  /** Encoding distributes over concatenation, one character at a time. */
  lemma {:induction false} EncodeAppend(a: string, b: string)
    ensures EncodeURIComponent(a + b) == EncodeURIComponent(a) + EncodeURIComponent(b)
  {
    if a != [] {
      var ab := a + b;
      assert ab[0] == a[0] && ab[1..] == a[1..] + b;
      EncodeAppend(a[1..], b);
      calc {
        EncodeURIComponent(ab);
        EncodeChar(a[0]) + EncodeURIComponent(a[1..] + b);
        EncodeChar(a[0]) + (EncodeURIComponent(a[1..]) + EncodeURIComponent(b));
        (EncodeChar(a[0]) + EncodeURIComponent(a[1..])) + EncodeURIComponent(b);
      }
    } else {
      assert a + b == b;
    }
  }
}
