/** Texts as components of a URI: `encodeURIComponent` and reading it back. */
module UriText {
  // ECMA-262 section 19.2.6 and, for the bytes of a character, section 3 of RFC 3629.

  import opened Common
  import opened Text

  /** The characters that are written as they are. */
  predicate IsUnescaped(c: char) {
    'A' <= c <= 'Z' || 'a' <= c <= 'z' || '0' <= c <= '9' || c in "-_.!~*'()"
  }

  function HexDigit(v: nat): (c: char)
    requires v < 16
    ensures HexValue(c) == v && c != '.' && c != ' '
  {
    if v < 10 then '0' + v as char else 'A' + (v - 10) as char
  }

  function HexValue(c: char): (v: nat)
    ensures v < 16
  {
    if '0' <= c <= '9' then (c - '0') as nat else if 'A' <= c <= 'F' then 10 + (c - 'A') as nat else 0
  }

  function Escaped(b: nat): string
    requires b < 256
  {
    ['%', HexDigit(b / 16), HexDigit(b % 16)]
  }

  function ByteOf(s: string): nat
    requires |s| >= 3
  {
    16 * HexValue(s[1]) + HexValue(s[2])
  }

  predicate AreBytes(bytes: seq<int>) {
    forall i | 0 <= i < |bytes| :: 0 <= bytes[i] < 256
  }

  function Utf8(c: nat): (bytes: seq<int>)
    requires c < 0x11_0000
    ensures AreBytes(bytes) && bytes != []
  {
    if c < 0x80 then [c]
    else if c < 0x800 then [0xC0 + c / 64, 0x80 + c % 64]
    else if c < 0x1_0000 then [0xE0 + c / 64 / 64, 0x80 + c / 64 % 64, 0x80 + c % 64]
    else [0xF0 + c / 64 / 64 / 64, 0x80 + c / 64 / 64 % 64, 0x80 + c / 64 % 64, 0x80 + c % 64]
  }

  /** How many bytes a character has that begins with this one. */
  function Width(b: int): (n: nat)
    ensures 1 <= n <= 4
  {
    if b < 0xC0 then 1 else if b < 0xE0 then 2 else if b < 0xF0 then 3 else 4
  }

  function CodePoint(bytes: seq<int>): int
    requires 1 <= |bytes| <= 4
  {
    if |bytes| == 1 then bytes[0]
    else if |bytes| == 2 then (bytes[0] - 0xC0) * 64 + (bytes[1] - 0x80)
    else if |bytes| == 3 then ((bytes[0] - 0xE0) * 64 + (bytes[1] - 0x80)) * 64 + (bytes[2] - 0x80)
    else (((bytes[0] - 0xF0) * 64 + (bytes[1] - 0x80)) * 64 + (bytes[2] - 0x80)) * 64 + (bytes[3] - 0x80)
  }

  function EscapedAll(bytes: seq<int>): (s: string)
    requires AreBytes(bytes)
    ensures |s| == 3 * |bytes| && '.' !in s
  {
    if bytes == [] then "" else Escaped(bytes[0]) + EscapedAll(bytes[1..])
  }

  function Bytes(s: string, n: nat): (bytes: seq<int>)
    requires 3 * n <= |s|
    ensures |bytes| == n
  {
    if n == 0 then [] else [ByteOf(s)] + Bytes(s[3..], n - 1)
  }

  function EncodedChar(c: char): (s: string)
    ensures s != "" && ('.' in s ==> s == ".")
  {
    if IsUnescaped(c) then [c] else EscapedAll(Utf8(c as nat))
  }

  /** `encodeURIComponent`. */
  function Encoded(s: string): string {
    if s == "" then "" else EncodedChar(s[0]) + Encoded(s[1..])
  }

  predicate IsCharacter(c: int) {
    0 <= c < 0xD800 || 0xE000 <= c < 0x11_0000
  }

  /** Reads escapes back, whatever else the text holds. */
  function Decoded(s: string): string {
    if s == "" then ""
    else if s[0] != '%' || |s| < 3 || |s| < 3 * Width(ByteOf(s)) then [s[0]] + Decoded(s[1..])
    else
      var n := Width(ByteOf(s));
      var c := CodePoint(Bytes(s, n));
      (if IsCharacter(c) then [c as char] else "") + Decoded(s[3 * n..])
  }

  /** The text is one that a component can be written as. */
  predicate IsEncoded(s: string) {
    Encoded(Decoded(s)) == s
  }

  lemma CodePointOfUtf8(c: nat)
    requires c < 0x11_0000
    ensures |Utf8(c)| == Width(Utf8(c)[0]) && CodePoint(Utf8(c)) == c
  {
  }

  lemma ByteOfEscaped(b: nat, rest: string)
    requires b < 256
    ensures ByteOf(Escaped(b) + rest) == b && (Escaped(b) + rest)[3..] == rest
  {
  }

  lemma {:induction false} BytesOfEscaped(bytes: seq<int>, rest: string)
    requires AreBytes(bytes)
    ensures Bytes(EscapedAll(bytes) + rest, |bytes|) == bytes
  {
    if bytes != [] {
      var s := EscapedAll(bytes) + rest;
      assert s == Escaped(bytes[0]) + (EscapedAll(bytes[1..]) + rest);
      ByteOfEscaped(bytes[0], EscapedAll(bytes[1..]) + rest);
      hide ByteOf, Escaped;
      BytesOfEscaped(bytes[1..], rest);
    }
  }

  lemma {:induction false} DecodedAfter(c: char, rest: string)
    ensures Decoded(EncodedChar(c) + rest) == [c] + Decoded(rest)
  {
    var s := EncodedChar(c) + rest;
    if IsUnescaped(c) {
      assert s[1..] == rest;
    } else {
      var bytes := Utf8(c as nat);
      CodePointOfUtf8(c as nat);
      BytesOfEscaped(bytes, rest);
      hide Utf8, CodePoint, Width;
      assert EscapedAll(bytes) == Escaped(bytes[0]) + EscapedAll(bytes[1..]);
      assert Bytes(s, |bytes|)[0] == ByteOf(s) == bytes[0] && s[0] == '%';
      assert s[3 * |bytes|..] == rest;
    }
  }

  /** Reading what was written gives the text, so no two texts are written the same. */
  lemma {:induction false} DecodedOfEncoded(s: string)
    ensures Decoded(Encoded(s)) == s
  {
    hide EncodedChar;
    if s != "" {
      DecodedAfter(s[0], Encoded(s[1..]));
      DecodedOfEncoded(s[1..]);
    }
  }

  lemma {:induction false} EncodedIsEncoded(s: string)
    ensures IsEncoded(Encoded(s))
  {
    DecodedOfEncoded(s);
  }

  lemma {:induction false} EncodedAppend(a: string, b: string)
    ensures Encoded(a + b) == Encoded(a) + Encoded(b)
  {
    hide EncodedChar;
    if a == "" {
      assert a + b == b;
    } else {
      assert (a + b)[1..] == a[1..] + b;
      EncodedAppend(a[1..], b);
    }
  }

  /** A written text can be cut after a dot: what is in front is the beginning of the text, written. */
  lemma {:induction false} CutAfterDot(s: string, front: string) returns (k: nat)
    requires StartsWith(Encoded(s), front) && front != "" && front[|front| - 1] == '.'
    ensures k <= |s| && front == Encoded(s[..k])
  {
    hide EncodedChar;
    var first, rest := EncodedChar(s[0]), Encoded(s[1..]);
    if |front| <= |first| {
      assert front == first[..|front|];
      assert '.' in first;
      k := 1;
      EncodedOne(s[0]);
      assert s[..1] == [s[0]];
    } else {
      assert front == first + front[|first|..];
      assert StartsWith(rest, front[|first|..]);
      var j := CutAfterDot(s[1..], front[|first|..]);
      k := j + 1;
      assert s[..k] == [s[0]] + s[1..][..j];
    }
  }

  lemma EncodedOne(c: char)
    ensures Encoded([c]) == EncodedChar(c)
  {
  }

  /** A text without characters to escape is written as it is. */
  lemma {:induction false} UnescapedIsEncoded(s: string)
    requires forall i | 0 <= i < |s| :: IsUnescaped(s[i])
    ensures Encoded(s) == s
  {
    if s != "" {
      UnescapedIsEncoded(s[1..]);
    }
  }

  lemma {:induction false} NoSpaces(s: string)
    ensures ' ' !in Encoded(s)
  {
    if s != "" {
      NoSpaces(s[1..]);
      if !IsUnescaped(s[0]) {
        EscapesHaveNoSpaces(Utf8(s[0] as nat));
      }
    }
  }

  lemma {:induction false} EscapesHaveNoSpaces(bytes: seq<int>)
    requires AreBytes(bytes)
    ensures ' ' !in EscapedAll(bytes)
  {
    if bytes != [] {
      EscapesHaveNoSpaces(bytes[1..]);
    }
  }
}
