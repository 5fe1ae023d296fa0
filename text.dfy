/**
 * The JavaScript string operations the core relies on, over `seq<char>`:
 * `String.prototype.split` and `Array.prototype.join` with a one-character
 * separator, single-character replacement, and decimal formatting of integers.
 */
module Text {

  /** `s.indexOf(d)`, or `|s|` when `d` does not occur. */
  function IndexOf(s: string, d: char): (i: nat)
    ensures i <= |s|
    ensures i < |s| ==> s[i] == d
    ensures forall j :: 0 <= j < i ==> s[j] != d
    decreases |s|
  {
    if |s| == 0 then 0
    else if s[0] == d then 0
    else 1 + IndexOf(s[1..], d)
  }

  /** `s.split(d)` for a one-character separator `d`: never empty, and no part contains `d`. */
  function Split(s: string, d: char): (parts: seq<string>)
    ensures |parts| >= 1
    ensures forall k :: 0 <= k < |parts| ==> d !in parts[k]
    decreases |s|
  {
    var i := IndexOf(s, d);
    if i == |s| then [s] else [s[..i]] + Split(s[i + 1..], d)
  }

  /** `parts.join(d)`. */
  function Join(parts: seq<string>, d: char): string
    decreases |parts|
  {
    if |parts| == 0 then []
    else if |parts| == 1 then parts[0]
    else parts[0] + [d] + Join(parts[1..], d)
  }

  /** A string without the separator is not split at all. */
  lemma SplitNoSeparator(s: string, d: char)
    requires d !in s
    ensures Split(s, d) == [s]
  {
    assert forall k :: 0 <= k < |s| ==> s[k] != d;
  }

  /** The first separator of `x + [d] + y` is the first of `x`, if `x` has one, else the added one. */
  lemma IndexOfConcat(x: string, d: char, y: string)
    ensures IndexOf(x + [d] + y, d) == IndexOf(x, d)
  {
    var s := x + [d] + y;
    var j := IndexOf(x, d);
    assert s[j] == d;
    assert forall k :: 0 <= k < |x| ==> s[k] == x[k];
  }

  /** A separator between two strings splits them apart. */
  lemma {:induction false} SplitConcat(x: string, d: char, y: string)
    ensures Split(x + [d] + y, d) == Split(x, d) + Split(y, d)
    decreases |x|
  {
    var s := x + [d] + y;
    var i := IndexOf(x, d);
    IndexOfConcat(x, d, y);
    if i == |x| {
      assert s[..i] == x && s[i + 1..] == y;
    } else {
      assert s[..i] == x[..i];
      assert s[i + 1..] == x[i + 1..] + [d] + y;
      SplitConcat(x[i + 1..], d, y);
    }
  }

  /** Joining then splitting restores the parts, provided none of them holds the separator. */
  lemma {:induction false} SplitJoin(parts: seq<string>, d: char)
    requires |parts| >= 1
    requires forall k :: 0 <= k < |parts| ==> d !in parts[k]
    ensures Split(Join(parts, d), d) == parts
    decreases |parts|
  {
    var p0, tail := parts[0], parts[1..];
    SplitNoSeparator(p0, d);
    if |parts| > 1 {
      var rest := Join(tail, d);
      assert Join(parts, d) == p0 + [d] + rest;
      SplitJoin(tail, d);
      SplitConcat(p0, d, rest);
      assert [p0] + tail == parts;
    }
  }

  /** A string is what precedes, what stands at and what follows any of its positions. */
  lemma Around(s: string, i: nat)
    requires i < |s|
    ensures s == s[..i] + [s[i]] + s[i + 1..]
  {
  }

  /** Joining a part before at least one more puts the separator after it. */
  lemma JoinCons(p: string, ps: seq<string>, d: char)
    requires ps != []
    ensures Join([p] + ps, d) == p + [d] + Join(ps, d)
  {
    assert ([p] + ps)[1..] == ps;
  }

  /** Splitting then joining restores the string. */
  lemma {:induction false} JoinSplit(s: string, d: char)
    ensures Join(Split(s, d), d) == s
    decreases |s|
  {
    var i := IndexOf(s, d);
    if i < |s| {
      var rest := s[i + 1..];
      JoinSplit(rest, d);
      assert Split(s, d) == [s[..i]] + Split(rest, d);
      JoinCons(s[..i], Split(rest, d), d);
      Around(s, i);
    }
  }

  /**
   * `s.split(d)[0]` is the text before the first `d`: the whole string when
   * `d` does not occur, otherwise followed in `s` by `d`.
   */
  lemma SplitHead(s: string, d: char)
    ensures var h := Split(s, d)[0];
      |h| <= |s| && s[..|h|] == h && d !in h && (|h| == |s| || s[|h|] == d)
  {
  }

  /** `s.split(d).slice(1).join(d)` is the text after the first `d`, or empty when there is none. */
  lemma SplitTail(s: string, d: char)
    ensures var parts := Split(s, d);
      var i := |parts[0]|;
      Join(parts[1..], d) == if i == |s| then [] else s[i + 1..]
  {
    var i := IndexOf(s, d);
    if i < |s| {
      JoinSplit(s[i + 1..], d);
      assert Split(s, d)[1..] == Split(s[i + 1..], d);
    }
  }

  /** `s.replace(/x/g, y)` for single characters. */
  function ReplaceAll(s: string, x: char, y: char): (r: string)
    ensures |r| == |s|
    ensures forall i :: 0 <= i < |s| ==> r[i] == if s[i] == x then y else s[i]
    ensures x != y ==> x !in r
    ensures x !in s ==> r == s
  {
    seq(|s|, i requires 0 <= i < |s| => if s[i] == x then y else s[i])
  }

  /** `s.replace(x, '')` with a string pattern: only the first occurrence goes. */
  function RemoveFirst(s: string, x: char): (r: string)
    ensures x !in s ==> r == s
    ensures x in s ==> r == s[..IndexOf(s, x)] + s[IndexOf(s, x) + 1..]
    decreases |s|
  {
    if |s| == 0 then []
    else if s[0] == x then s[1..]
    else [s[0]] + RemoveFirst(s[1..], x)
  }

  /** The decimal digit for `d < 10`. */
  function DigitChar(d: nat): char
    requires d < 10
  {
    (('0' as int) + d) as char
  }

  /** Decimal notation of a natural number, as JavaScript's template literals print it. */
  function NatToString(n: nat): (s: string)
    ensures |s| >= 1
  {
    if n < 10 then [DigitChar(n)] else NatToString(n / 10) + [DigitChar(n % 10)]
  }

  /** The notation is made of decimal digits only (so, in particular, holds no `-`). */
  lemma {:induction false} NatToStringDigits(n: nat)
    ensures forall i :: 0 <= i < |NatToString(n)| ==> '0' <= NatToString(n)[i] <= '9'
  {
    if n >= 10 {
      NatToStringDigits(n / 10);
    }
  }

  /** Decimal notation of an integer, with a leading `-` when negative. */
  function IntToString(n: int): string {
    if n < 0 then "-" + NatToString(-n) else NatToString(n)
  }

  lemma DigitCharInjective(a: nat, b: nat)
    requires a < 10 && b < 10 && DigitChar(a) == DigitChar(b)
    ensures a == b
  {
  }

  /** Distinct numbers print differently. */
  lemma {:induction false} NatToStringInjective(m: nat, n: nat)
    requires NatToString(m) == NatToString(n)
    ensures m == n
  {
    var sm, sn := NatToString(m), NatToString(n);
    if m < 10 && n < 10 {
      DigitCharInjective(m, n);
    } else if m >= 10 && n >= 10 {
      assert sm[|sm| - 1] == DigitChar(m % 10);
      assert sn[|sn| - 1] == DigitChar(n % 10);
      DigitCharInjective(m % 10, n % 10);
      assert sm[..|sm| - 1] == NatToString(m / 10);
      assert sn[..|sn| - 1] == NatToString(n / 10);
      NatToStringInjective(m / 10, n / 10);
    }
  }

  /** `[0-9a-fA-F]`, the ASCII hex digits (a case-insensitive `[0-9A-F]`). */
  predicate IsHexDigit(c: char) {
    ('0' <= c <= '9') || ('a' <= c <= 'f') || ('A' <= c <= 'F')
  }

  /** `parseInt(c, 16)` for one hex digit. */
  function HexValue(c: char): (v: nat)
    requires IsHexDigit(c)
    ensures v < 16
  {
    if '0' <= c <= '9' then (c as int) - ('0' as int)
    else if 'a' <= c <= 'f' then (c as int) - ('a' as int) + 10
    else (c as int) - ('A' as int) + 10
  }

  /** The upper-case hex digit of `v < 16`. */
  function HexDigitUpper(v: nat): (c: char)
    requires v < 16
    ensures IsHexDigit(c) && HexValue(c) == v
    ensures ('0' <= c <= '9') || ('A' <= c <= 'F')
  {
    if v < 10 then (('0' as int) + v) as char else (('A' as int) + v - 10) as char
  }

  /** ASCII upper-casing of one character (`toUpperCase` on the ASCII range). */
  function UpperChar(c: char): char {
    if 'a' <= c <= 'z' then ((c as int) - 32) as char else c
  }

  /** `s.toUpperCase()` on ASCII text. */
  function ToUpper(s: string): (r: string)
    ensures |r| == |s|
    ensures forall i :: 0 <= i < |s| ==> r[i] == UpperChar(s[i])
    ensures forall i :: 0 <= i < |s| && IsHexDigit(s[i]) ==> IsHexDigit(r[i]) && HexValue(r[i]) == HexValue(s[i])
  {
    seq(|s|, i requires 0 <= i < |s| => UpperChar(s[i]))
  }

  /** Upper-casing twice is upper-casing once. */
  lemma ToUpperIdempotent(s: string)
    ensures ToUpper(ToUpper(s)) == ToUpper(s)
  {
  }
}
