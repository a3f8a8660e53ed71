/**
 * Percent-decoding as done by Ruby's `URI.unescape`: every `%` followed by
 * two hexadecimal digits, scanning left to right without overlap, is
 * replaced by the byte those digits name; every other character, including
 * a `%` not followed by two hexadecimal digits, is kept. Strings are byte
 * strings here: a decoded byte is the character with that code.
 */
module PercentEncoding {

  predicate IsHexDigit(c: char)
  {
    '0' <= c <= '9' || 'a' <= c <= 'f' || 'A' <= c <= 'F'
  }

  function HexValue(c: char): (v: nat)
    requires IsHexDigit(c)
    ensures v < 16
  {
    if '0' <= c <= '9' then c as int - '0' as int
    else if 'a' <= c <= 'f' then c as int - 'a' as int + 10
    else c as int - 'A' as int + 10
  }

  /** The upper-case hexadecimal digit for `n`; HexValue reads it back. */
  function HexDigit(n: nat): (c: char)
    requires n < 16
    ensures IsHexDigit(c) && HexValue(c) == n
  {
    if n < 10 then ('0' as int + n) as char else ('A' as int + n - 10) as char
  }

  /** `URI.unescape`. */
  function Unescape(s: string): (r: string)
    ensures |r| <= |s|
    ensures |s| > 0 ==> |r| > 0
    ensures '%' !in s ==> r == s
    decreases |s|
  {
    if |s| >= 3 && s[0] == '%' && IsHexDigit(s[1]) && IsHexDigit(s[2]) then
      [(HexValue(s[1]) * 16 + HexValue(s[2])) as char] + Unescape(s[3..])
    else if s == [] then []
    else [s[0]] + Unescape(s[1..])
  }

  /** Unescape applied to every string of a list (the source's `map { |str| URI.unescape str }`). */
  function UnescapeAll(ss: seq<string>): (r: seq<string>)
    ensures |r| == |ss|
    ensures forall i :: 0 <= i < |ss| ==> r[i] == Unescape(ss[i])
  {
    seq(|ss|, i requires 0 <= i < |ss| => Unescape(ss[i]))
  }

  predicate IsByteString(s: string)
  {
    forall i :: 0 <= i < |s| ==> s[i] as int < 256
  }

  /** Encodes every byte as `%XY`; the reference inverse of Unescape. */
  function EscapeAll(s: string): (r: string)
    requires IsByteString(s)
    ensures |r| == 3 * |s|
    ensures forall i :: 0 <= i < |r| ==> r[i] == '%' || IsHexDigit(r[i])
    ensures |s| > 0 ==> r[0] == '%'
    decreases |s|
  {
    if s == [] then []
    else
      var b := s[0] as int;
      ['%', HexDigit(b / 16), HexDigit(b % 16)] + EscapeAll(s[1..])
  }

  /** Decoding undoes encoding, for every byte string. */
  lemma {:induction false} UnescapeEscapeAll(s: string)
    requires IsByteString(s)
    ensures Unescape(EscapeAll(s)) == s
    decreases |s|
  {
    if s != [] {
      var e := EscapeAll(s);
      var b := s[0] as int;
      assert e[3..] == EscapeAll(s[1..]);
      UnescapeEscapeAll(s[1..]);
      assert HexValue(e[1]) * 16 + HexValue(e[2]) == b;
      assert [s[0]] + s[1..] == s;
    }
  }

  /** An encoded non-empty string is none of the words the router compares raw segments with. */
  lemma EscapedIsNoWord(s: string, w: string)
    requires IsByteString(s) && |s| > 0
    requires w != [] && w[0] != '%'
    ensures EscapeAll(s) != w
  {
  }

  /** An encoded string holds no `/` and no `,`. */
  lemma EscapedHasNoSeparators(s: string)
    requires IsByteString(s)
    ensures '/' !in EscapeAll(s) && ',' !in EscapeAll(s)
  {
    var e := EscapeAll(s);
    forall i | 0 <= i < |e| ensures e[i] != '/' && e[i] != ',' {
    }
  }
}
