/**
 * `encodeURIComponent` and `decodeURIComponent` (ECMAScript's Encode and
 * Decode abstract operations with an empty reserved set): every character
 * outside the unreserved set travels as the `%XX` escapes of its UTF-8 bytes.
 * Decoding fails — where JavaScript throws a `URIError` — on a `%` not
 * followed by two hex digits and on escapes that are not well-formed UTF-8.
 */
module UriComponent {
  import opened Wrappers
  import opened Text

  /** The characters `encodeURIComponent` leaves as they are: `A-Z a-z 0-9 - _ . ! ~ * ' ( )`. */
  predicate IsUnreserved(c: char) {
    ('A' <= c <= 'Z') || ('a' <= c <= 'z') || ('0' <= c <= '9') || c in "-_.!~*'()"
  }

  /** `%XX` for one byte, with upper-case hex digits. */
  function Escape(b: nat): (e: string)
    requires b < 256
    ensures |e| == 3 && e[0] == '%' && IsHexDigit(e[1]) && IsHexDigit(e[2])
    ensures 16 * HexValue(e[1]) + HexValue(e[2]) == b
  {
    ['%', HexDigitUpper(b / 16), HexDigitUpper(b % 16)]
  }

  /** A string that holds only unreserved characters and `%`. */
  predicate IsEncodedText(s: string) {
    forall i :: 0 <= i < |s| ==> IsUnreserved(s[i]) || s[i] == '%'
  }

  lemma EncodedTextConcat(a: string, b: string)
    requires IsEncodedText(a) && IsEncodedText(b)
    ensures IsEncodedText(a + b)
  {
    assert forall i :: 0 <= i < |b| ==> (a + b)[|a| + i] == b[i];
  }

  lemma EscapeIsEncodedText(b: nat)
    requires b < 256
    ensures IsEncodedText(Escape(b))
  {
    var e := Escape(b);
    assert IsUnreserved(e[1]) && IsUnreserved(e[2]);
  }

  /** The UTF-8 encoding of a Unicode scalar value. */
  function Utf8(c: char): (bytes: seq<nat>)
    ensures 1 <= |bytes| <= 4 && forall i :: 0 <= i < |bytes| ==> bytes[i] < 256
    ensures |bytes| == 1 <==> c as int < 0x80
    ensures |bytes| == 2 <==> 0x80 <= c as int < 0x800
    ensures |bytes| == 3 <==> 0x800 <= c as int < 0x10000
  {
    var cp := c as int;
    if cp < 0x80 then [cp]
    else if cp < 0x800 then [0xC0 + cp / 64, 0x80 + cp % 64]
    else if cp < 0x10000 then [0xE0 + cp / 4096, 0x80 + (cp / 64) % 64, 0x80 + cp % 64]
    else [0xF0 + cp / 262144, 0x80 + (cp / 4096) % 64, 0x80 + (cp / 64) % 64, 0x80 + cp % 64]
  }

  /** The text for one character: itself when unreserved, else the escapes of its UTF-8 bytes. */
  function EncodeChar(c: char): string {
    if IsUnreserved(c) then [c] else Escapes(Utf8(c))
  }

  lemma EncodeCharIsEncodedText(c: char)
    ensures |EncodeChar(c)| >= 1 && IsEncodedText(EncodeChar(c))
  {
    if !IsUnreserved(c) {
      EscapesAreEncodedText(Utf8(c));
      EscapesUnrolled(Utf8(c));
    }
  }

  /** The escapes of a run of bytes, one after the other. */
  function Escapes(bytes: seq<nat>): string
    requires forall i :: 0 <= i < |bytes| ==> bytes[i] < 256
  {
    if bytes == [] then [] else Escapes(bytes[..|bytes| - 1]) + Escape(bytes[|bytes| - 1])
  }

  lemma EscapesUnrolled(bytes: seq<nat>)
    requires 1 <= |bytes| <= 4 && forall i :: 0 <= i < |bytes| ==> bytes[i] < 256
    ensures |bytes| == 1 ==> Escapes(bytes) == Escape(bytes[0])
    ensures |bytes| == 2 ==> Escapes(bytes) == Escape(bytes[0]) + Escape(bytes[1])
    ensures |bytes| == 3 ==> Escapes(bytes) == Escape(bytes[0]) + Escape(bytes[1]) + Escape(bytes[2])
    ensures |bytes| == 4 ==>
      Escapes(bytes) == Escape(bytes[0]) + Escape(bytes[1]) + Escape(bytes[2]) + Escape(bytes[3])
  {
    var one := bytes[..1];
    assert one[..0] == [];
    assert Escapes(one) == Escape(bytes[0]);
    if |bytes| == 1 {
      assert bytes == one;
      return;
    }
    var two := bytes[..2];
    assert two[..1] == one;
    assert Escapes(two) == Escape(bytes[0]) + Escape(bytes[1]);
    if |bytes| >= 3 {
      var three := bytes[..3];
      assert three[..2] == two;
      assert Escapes(three) == Escapes(two) + Escape(bytes[2]);
      if |bytes| == 4 {
        assert bytes[..3] == three;
      } else {
        assert bytes == three;
      }
    } else {
      assert bytes == two;
    }
  }

  lemma {:induction false} EscapesAreEncodedText(bytes: seq<nat>)
    requires forall i :: 0 <= i < |bytes| ==> bytes[i] < 256
    ensures IsEncodedText(Escapes(bytes))
  {
    if bytes != [] {
      EscapesAreEncodedText(bytes[..|bytes| - 1]);
      EscapeIsEncodedText(bytes[|bytes| - 1]);
      EncodedTextConcat(Escapes(bytes[..|bytes| - 1]), Escape(bytes[|bytes| - 1]));
    }
  }

  /**
   * `encodeURIComponent(s)`. Its output holds none of the characters the
   * share link uses as separators (`,` `:` `|`).
   */
  function Encode(s: string): (e: string)
    ensures IsEncodedText(e)
    ensures ',' !in e && ':' !in e && '|' !in e
    ensures s != [] ==> e != []
  {
    if s == [] then []
    else
      var head, tail := EncodeChar(s[0]), Encode(s[1..]);
      EncodeCharIsEncodedText(s[0]);
      EncodedTextConcat(head, tail);
      head + tail
  }

  /** The byte escaped as `%XX` at position `i` of `s`, if there is one. */
  function ByteAt(s: string, i: nat): (b: Option<nat>)
    ensures b.Some? ==> b.value < 256
  {
    if i + 3 <= |s| && s[i] == '%' && IsHexDigit(s[i + 1]) && IsHexDigit(s[i + 2])
    then Some(16 * HexValue(s[i + 1]) + HexValue(s[i + 2]))
    else None
  }

  predicate IsContinuation(b: Option<nat>) {
    b.Some? && 0x80 <= b.value < 0xC0
  }

  /**
   * Decodes the escape sequence at the start of `s`: the character and the
   * number of characters it took, or `None` where `decodeURIComponent` throws.
   */
  function DecodeEscapes(s: string): (r: Option<(char, nat)>)
    ensures r.Some? ==> 3 <= r.value.1 <= |s|
  {
    match ByteAt(s, 0)
    case None => None
    case Some(b0) =>
      if b0 < 0x80 then Some((b0 as char, 3))
      else if 0xC0 <= b0 < 0xE0 then DecodeTwo(s, b0)
      else if 0xE0 <= b0 < 0xF0 then DecodeThree(s, b0)
      else if 0xF0 <= b0 < 0xF8 then DecodeFour(s, b0)
      else None
  }

  /** A two-byte sequence: rejected when overlong. */
  function DecodeTwo(s: string, b0: nat): (r: Option<(char, nat)>)
    requires 0xC0 <= b0 < 0xE0
    ensures r.Some? ==> r.value.1 == 6 <= |s|
  {
    var b1 := ByteAt(s, 3);
    if !IsContinuation(b1) then None
    else
      var cp := (b0 - 0xC0) * 64 + (b1.value - 0x80);
      if cp < 0x80 then None else Some((cp as char, 6))
  }

  /** A three-byte sequence: rejected when overlong or a surrogate. */
  function DecodeThree(s: string, b0: nat): (r: Option<(char, nat)>)
    requires 0xE0 <= b0 < 0xF0
    ensures r.Some? ==> r.value.1 == 9 <= |s|
  {
    var b1, b2 := ByteAt(s, 3), ByteAt(s, 6);
    if !IsContinuation(b1) || !IsContinuation(b2) then None
    else
      var cp := (b0 - 0xE0) * 4096 + (b1.value - 0x80) * 64 + (b2.value - 0x80);
      if cp < 0x800 || (0xD800 <= cp <= 0xDFFF) then None else Some((cp as char, 9))
  }

  /** A four-byte sequence: rejected when overlong or beyond U+10FFFF. */
  function DecodeFour(s: string, b0: nat): (r: Option<(char, nat)>)
    requires 0xF0 <= b0 < 0xF8
    ensures r.Some? ==> r.value.1 == 12 <= |s|
  {
    var b1, b2, b3 := ByteAt(s, 3), ByteAt(s, 6), ByteAt(s, 9);
    if !IsContinuation(b1) || !IsContinuation(b2) || !IsContinuation(b3) then None
    else
      var cp := (b0 - 0xF0) * 262144 + (b1.value - 0x80) * 4096
                + (b2.value - 0x80) * 64 + (b3.value - 0x80);
      if cp < 0x10000 || cp > 0x10FFFF then None else Some((cp as char, 12))
  }

  /** `decodeURIComponent(s)`; `None` where it throws a `URIError`. */
  function Decode(s: string): (r: Option<string>)
    ensures r.Some? ==> |r.value| <= |s|
    ensures '%' !in s ==> r == Some(s)
    decreases |s|, 1
  {
    if s == [] then Some([])
    else if s[0] != '%' then
      match Decode(s[1..])
      case None => None
      case Some(t) =>
        assert s == [s[0]] + s[1..];
        Some([s[0]] + t)
    else DecodeEscaped(s)
  }

  /** Decoding text that starts with `%`: one character's escapes, then the rest. */
  function DecodeEscaped(s: string): (r: Option<string>)
    requires |s| > 0 && s[0] == '%'
    ensures r.Some? ==> |r.value| <= |s| - 2
    decreases |s|, 0
  {
    match DecodeEscapes(s)
    case None => None
    case Some((c, k)) =>
      match Decode(s[k..])
      case None => None
      case Some(t) => Some([c] + t)
  }

  /** Decoding never turns text into nothing, nor nothing into text. */
  lemma DecodeEmpty(s: string)
    requires Decode(s).Some?
    ensures Decode(s).value == [] <==> s == []
  {
  }

  lemma EscapeAt(b: nat, pre: string, rest: string)
    requires b < 256
    ensures ByteAt(pre + Escape(b) + rest, |pre|) == Some(b)
  {
    var s := pre + Escape(b) + rest;
    assert s[|pre|..|pre| + 3] == Escape(b);
  }

  /** Arithmetic behind the UTF-8 layout of a two-byte character. */
  lemma Utf8Two(cp: int)
    requires 0x80 <= cp < 0x800
    ensures 0xC0 <= 0xC0 + cp / 64 < 0xE0
    ensures (cp / 64) * 64 + cp % 64 == cp
  {
  }

  /** Arithmetic behind the UTF-8 layout of a three-byte character. */
  lemma Utf8Three(cp: int)
    requires 0x800 <= cp < 0x10000
    ensures 0xE0 <= 0xE0 + cp / 4096 < 0xF0
    ensures (cp / 4096) * 4096 + ((cp / 64) % 64) * 64 + cp % 64 == cp
  {
    var q := cp / 64;
    assert cp == q * 64 + cp % 64;
    assert q == (q / 64) * 64 + q % 64;
    assert q / 64 == cp / 4096;
  }

  /** Arithmetic behind the UTF-8 layout of a four-byte character. */
  lemma Utf8Four(cp: int)
    requires 0x10000 <= cp < 0x110000
    ensures 0xF0 <= 0xF0 + cp / 262144 < 0xF8
    ensures (cp / 262144) * 262144 + ((cp / 4096) % 64) * 4096 + ((cp / 64) % 64) * 64 + cp % 64 == cp
  {
    var q := cp / 64;
    var p := q / 64;
    assert cp == q * 64 + cp % 64;
    assert q == p * 64 + q % 64;
    assert p == (p / 64) * 64 + p % 64;
    assert p == cp / 4096;
    assert p / 64 == cp / 262144;
  }

  /** The escapes of one character decode back to that character, whatever follows them. */
  lemma DecodeEscapesOfChar(c: char, rest: string)
    requires !IsUnreserved(c)
    ensures DecodeEscapes(EncodeChar(c) + rest) == Some((c, |EncodeChar(c)|))
  {
    var cp := c as int;
    EscapesUnrolled(Utf8(c));
    if cp < 0x80 {
      EscapeAt(cp, [], rest);
      assert EncodeChar(c) + rest == [] + Escape(cp) + rest;
    } else if cp < 0x800 {
      DecodeTwoOfChar(c, rest);
    } else if cp < 0x10000 {
      DecodeThreeOfChar(c, rest);
    } else {
      DecodeFourOfChar(c, rest);
    }
  }

  lemma DecodeTwoOfChar(c: char, rest: string)
    requires 0x80 <= c as int < 0x800 && !IsUnreserved(c)
    ensures DecodeEscapes(EncodeChar(c) + rest) == Some((c, 6))
  {
    var cp := c as int;
    var b0, b1 := 0xC0 + cp / 64, 0x80 + cp % 64;
    var bytes := Utf8(c);
    assert bytes == [b0, b1];
    EscapesUnrolled(bytes);
    TwoEscapesAt(b0, b1, rest);
    ghost var s := Escape(b0) + Escape(b1) + rest;
    assert EncodeChar(c) + rest == s;
    DecodeTwoBytes(c, s, b0, b1);
  }

  lemma TwoEscapesAt(b0: nat, b1: nat, rest: string)
    requires b0 < 256 && b1 < 256
    ensures var s := Escape(b0) + Escape(b1) + rest;
      ByteAt(s, 0) == Some(b0) && ByteAt(s, 3) == Some(b1)
  {
    var e0, e1 := Escape(b0), Escape(b1);
    EscapeAt(b0, [], e1 + rest);
    assert e0 + e1 + rest == [] + e0 + (e1 + rest);
    EscapeAt(b1, e0, rest);
  }

  lemma DecodeTwoBytes(c: char, s: string, b0: nat, b1: nat)
    requires 0x80 <= c as int < 0x800
    requires b0 == 0xC0 + (c as int) / 64 && b1 == 0x80 + (c as int) % 64
    requires ByteAt(s, 0) == Some(b0) && ByteAt(s, 3) == Some(b1)
    ensures DecodeEscapes(s) == Some((c, 6))
  {
    Utf8Two(c as int);
    assert DecodeTwo(s, b0) == Some((c, 6));
  }

  lemma DecodeThreeOfChar(c: char, rest: string)
    requires 0x800 <= c as int < 0x10000 && !IsUnreserved(c)
    ensures DecodeEscapes(EncodeChar(c) + rest) == Some((c, 9))
  {
    var cp := c as int;
    var b0, b1, b2 := 0xE0 + cp / 4096, 0x80 + (cp / 64) % 64, 0x80 + cp % 64;
    var bytes := Utf8(c);
    assert bytes == [b0, b1, b2];
    EscapesUnrolled(bytes);
    ThreeEscapesAt(b0, b1, b2, rest);
    ghost var s := Escape(b0) + Escape(b1) + Escape(b2) + rest;
    assert EncodeChar(c) + rest == s;
    DecodeThreeBytes(c, s, b0, b1, b2);
  }

  lemma ThreeEscapesAt(b0: nat, b1: nat, b2: nat, rest: string)
    requires b0 < 256 && b1 < 256 && b2 < 256
    ensures var s := Escape(b0) + Escape(b1) + Escape(b2) + rest;
      ByteAt(s, 0) == Some(b0) && ByteAt(s, 3) == Some(b1) && ByteAt(s, 6) == Some(b2)
  {
    var e0, e1, e2 := Escape(b0), Escape(b1), Escape(b2);
    var s := e0 + e1 + e2 + rest;
    EscapeAt(b0, [], e1 + e2 + rest);
    assert s == [] + e0 + (e1 + e2 + rest);
    EscapeAt(b1, e0, e2 + rest);
    assert s == e0 + e1 + (e2 + rest);
    EscapeAt(b2, e0 + e1, rest);
  }

  lemma DecodeThreeBytes(c: char, s: string, b0: nat, b1: nat, b2: nat)
    requires 0x800 <= c as int < 0x10000
    requires var cp := c as int;
      b0 == 0xE0 + cp / 4096 && b1 == 0x80 + (cp / 64) % 64 && b2 == 0x80 + cp % 64
    requires ByteAt(s, 0) == Some(b0) && ByteAt(s, 3) == Some(b1) && ByteAt(s, 6) == Some(b2)
    ensures DecodeEscapes(s) == Some((c, 9))
  {
    Utf8Three(c as int);
    assert DecodeThree(s, b0) == Some((c, 9));
  }

  lemma DecodeFourOfChar(c: char, rest: string)
    requires 0x10000 <= c as int && !IsUnreserved(c)
    ensures DecodeEscapes(EncodeChar(c) + rest) == Some((c, 12))
  {
    var cp := c as int;
    var b0, b1 := 0xF0 + cp / 262144, 0x80 + (cp / 4096) % 64;
    var b2, b3 := 0x80 + (cp / 64) % 64, 0x80 + cp % 64;
    var bytes := Utf8(c);
    assert bytes == [b0, b1, b2, b3];
    EscapesUnrolled(bytes);
    FourEscapesAt(b0, b1, b2, b3, rest);
    ghost var s := Escape(b0) + Escape(b1) + Escape(b2) + Escape(b3) + rest;
    assert EncodeChar(c) + rest == s;
    DecodeFourBytes(c, s, b0, b1, b2, b3);
  }

  lemma FourEscapesAt(b0: nat, b1: nat, b2: nat, b3: nat, rest: string)
    requires b0 < 256 && b1 < 256 && b2 < 256 && b3 < 256
    ensures var s := Escape(b0) + Escape(b1) + Escape(b2) + Escape(b3) + rest;
      ByteAt(s, 0) == Some(b0) && ByteAt(s, 3) == Some(b1)
      && ByteAt(s, 6) == Some(b2) && ByteAt(s, 9) == Some(b3)
  {
    var e0, e1, e2, e3 := Escape(b0), Escape(b1), Escape(b2), Escape(b3);
    var s := e0 + e1 + e2 + e3 + rest;
    EscapeAt(b0, [], e1 + e2 + e3 + rest);
    assert s == [] + e0 + (e1 + e2 + e3 + rest);
    EscapeAt(b1, e0, e2 + e3 + rest);
    assert s == e0 + e1 + (e2 + e3 + rest);
    EscapeAt(b2, e0 + e1, e3 + rest);
    assert s == (e0 + e1) + e2 + (e3 + rest);
    EscapeAt(b3, e0 + e1 + e2, rest);
    assert s == (e0 + e1 + e2) + e3 + rest;
  }

  lemma DecodeFourBytes(c: char, s: string, b0: nat, b1: nat, b2: nat, b3: nat)
    requires 0x10000 <= c as int
    requires var cp := c as int;
      b0 == 0xF0 + cp / 262144 && b1 == 0x80 + (cp / 4096) % 64
      && b2 == 0x80 + (cp / 64) % 64 && b3 == 0x80 + cp % 64
    requires ByteAt(s, 0) == Some(b0) && ByteAt(s, 3) == Some(b1)
    requires ByteAt(s, 6) == Some(b2) && ByteAt(s, 9) == Some(b3)
    ensures DecodeEscapes(s) == Some((c, 12))
  {
    Utf8Four(c as int);
    assert DecodeFour(s, b0) == Some((c, 12));
  }

  /** An unreserved character in front of decodable text decodes as itself. */
  lemma DecodeUnreservedHead(c: char, tail: string, rest: string)
    requires IsUnreserved(c) && Decode(tail) == Some(rest)
    ensures Decode(EncodeChar(c) + tail) == Some([c] + rest)
  {
    var e := EncodeChar(c) + tail;
    assert e[0] == c && e[1..] == tail;
  }

  /** The escapes of a reserved character in front of decodable text decode as that character. */
  lemma DecodeEscapedHead(c: char, tail: string, rest: string)
    requires !IsUnreserved(c) && Decode(tail) == Some(rest)
    ensures Decode(EncodeChar(c) + tail) == Some([c] + rest)
  {
    var head := EncodeChar(c);
    var e := head + tail;
    DecodeEscapesOfChar(c, tail);
    EscapesUnrolled(Utf8(c));
    assert e[0] == '%';
    assert e[|head|..] == tail;
    assert Decode(e) == DecodeEscaped(e);
  }

  /** `decodeURIComponent(encodeURIComponent(s)) === s`. */
  lemma {:induction false} DecodeEncode(s: string)
    ensures Decode(Encode(s)) == Some(s)
    decreases |s|
  {
    if s != [] {
      DecodeEncode(s[1..]);
      assert Encode(s) == EncodeChar(s[0]) + Encode(s[1..]);
      if IsUnreserved(s[0]) {
        DecodeUnreservedHead(s[0], Encode(s[1..]), s[1..]);
      } else {
        DecodeEscapedHead(s[0], Encode(s[1..]), s[1..]);
      }
      assert [s[0]] + s[1..] == s;
    }
  }
}
