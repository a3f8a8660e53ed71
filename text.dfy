/**
 * String helpers used by the router: splitting on a separator character
 * (with and without Ruby's removal of trailing empty pieces), joining, and
 * the decimal conversion of a run of digits.
 */
module Text {

  /** The pieces of `s` between occurrences of `sep`, empty pieces included. */
  function SplitAll(s: string, sep: char): (pieces: seq<string>)
    ensures |pieces| >= 1
    ensures forall i :: 0 <= i < |pieces| ==> sep !in pieces[i]
    decreases |s|
  {
    if s == [] then [[]]
    else
      var rest := SplitAll(s[1..], sep);
      if s[0] == sep then [[]] + rest
      else [[s[0]] + rest[0]] + rest[1..]
  }

  /** The pieces written one after another with `sep` between neighbours. */
  function Join(pieces: seq<string>, sep: char): string
  {
    if |pieces| == 0 then []
    else if |pieces| == 1 then pieces[0]
    else pieces[0] + [sep] + Join(pieces[1..], sep)
  }

  /** Splitting and joining again gives back the string. */
  lemma {:induction false} JoinSplitAll(s: string, sep: char)
    ensures Join(SplitAll(s, sep), sep) == s
    decreases |s|
  {
    if s != [] {
      var rest := SplitAll(s[1..], sep);
      JoinSplitAll(s[1..], sep);
      if s[0] != sep && |rest| > 1 {
        var pieces := [[s[0]] + rest[0]] + rest[1..];
        assert pieces[1..] == rest[1..];
        assert s == [s[0]] + s[1..];
      }
    }
  }

  lemma {:induction false} SplitAllNoSep(p: string, sep: char)
    requires sep !in p
    ensures SplitAll(p, sep) == [p]
    decreases |p|
  {
    if p != [] {
      SplitAllNoSep(p[1..], sep);
      assert [p[0]] + p[1..] == p;
    }
  }

  lemma {:induction false} SplitAllPrefix(p: string, rest: string, sep: char)
    requires sep !in p
    ensures SplitAll(p + [sep] + rest, sep) == [p] + SplitAll(rest, sep)
    decreases |p|
  {
    var s := p + [sep] + rest;
    if p == [] {
      assert s[1..] == rest;
    } else {
      assert s[1..] == p[1..] + [sep] + rest;
      SplitAllPrefix(p[1..], rest, sep);
      assert [p[0]] + p[1..] == p;
    }
  }

  /** Joining pieces free of the separator and splitting again gives back the pieces. */
  lemma {:induction false} SplitAllJoin(pieces: seq<string>, sep: char)
    requires |pieces| >= 1
    requires forall i :: 0 <= i < |pieces| ==> sep !in pieces[i]
    ensures SplitAll(Join(pieces, sep), sep) == pieces
    decreases |pieces|
  {
    if |pieces| == 1 {
      SplitAllNoSep(pieces[0], sep);
    } else {
      SplitAllPrefix(pieces[0], Join(pieces[1..], sep), sep);
      SplitAllJoin(pieces[1..], sep);
      assert [pieces[0]] + pieces[1..] == pieces;
    }
  }

  /** A string free of `sep` stays free of it when pieces free of it are joined by another separator. */
  lemma {:induction false} JoinAvoids(pieces: seq<string>, sep: char, c: char)
    requires c != sep
    requires forall i :: 0 <= i < |pieces| ==> c !in pieces[i]
    ensures c !in Join(pieces, sep)
    decreases |pieces|
  {
    if |pieces| > 1 {
      JoinAvoids(pieces[1..], sep, c);
    }
  }

  /** Drops empty pieces from the end of the list, as Ruby's `String#split` does. */
  function DropTrailingEmpty(pieces: seq<string>): (r: seq<string>)
    ensures |r| <= |pieces| && r == pieces[..|r|]
    ensures r == [] || r[|r| - 1] != []
    ensures forall i :: |r| <= i < |pieces| ==> pieces[i] == []
    decreases |pieces|
  {
    if |pieces| > 0 && pieces[|pieces| - 1] == [] then DropTrailingEmpty(pieces[..|pieces| - 1])
    else pieces
  }

  /** Ruby's `str.split(sep)` for a one-character separator: trailing empty pieces are removed. */
  function RubySplit(s: string, sep: char): (r: seq<string>)
    ensures forall i :: 0 <= i < |r| ==> sep !in r[i]
    ensures r == [] || r[|r| - 1] != []
    ensures var all := SplitAll(s, sep);
      |r| <= |all| && r == all[..|r|] && forall i :: |r| <= i < |all| ==> all[i] == []
  {
    DropTrailingEmpty(SplitAll(s, sep))
  }

  /** Splitting a join whose last piece is non-empty returns exactly the pieces. */
  lemma RubySplitJoin(pieces: seq<string>, sep: char)
    requires |pieces| >= 1 && pieces[|pieces| - 1] != []
    requires forall i :: 0 <= i < |pieces| ==> sep !in pieces[i]
    ensures RubySplit(Join(pieces, sep), sep) == pieces
  {
    SplitAllJoin(pieces, sep);
  }

  predicate IsDigit(c: char) { '0' <= c <= '9' }

  /** The regular expression `\d+`: one or more ASCII digits. */
  predicate AllDigits(s: string)
  {
    |s| > 0 && forall i :: 0 <= i < |s| ==> IsDigit(s[i])
  }

  function Pow10(n: nat): nat
  {
    if n == 0 then 1 else 10 * Pow10(n - 1)
  }

  /** The value of a run of decimal digits (Ruby's `to_i` on such a string); `n` digits stay below 10^n. */
  function DecimalValue(s: string): (r: nat)
    ensures (forall i :: 0 <= i < |s| ==> IsDigit(s[i])) ==> r < Pow10(|s|)
    decreases |s|
  {
    if s == [] then 0
    else
      var d := s[|s| - 1] as int - '0' as int;
      var front := DecimalValue(s[..|s| - 1]);
      assert (forall i :: 0 <= i < |s| ==> IsDigit(s[i])) ==> front + 1 <= Pow10(|s| - 1) && d <= 9 by {
        if forall i :: 0 <= i < |s| ==> IsDigit(s[i]) {
          assert forall i :: 0 <= i < |s| - 1 ==> s[..|s| - 1][i] == s[i];
          assert IsDigit(s[|s| - 1]);
        }
      }
      front * 10 + (if 0 <= d then d else 0)
  }

  /** The shortest decimal numeral of `n`. */
  function DecimalString(n: nat): (s: string)
    ensures AllDigits(s)
    decreases n
  {
    if n < 10 then [('0' as int + n) as char]
    else DecimalString(n / 10) + [('0' as int + n % 10) as char]
  }

  /** Reading back a written numeral gives the number. */
  lemma {:induction false} DecimalRoundTrip(n: nat)
    ensures DecimalValue(DecimalString(n)) == n
    decreases n
  {
    var s := DecimalString(n);
    if n >= 10 {
      DecimalRoundTrip(n / 10);
      assert s[..|s| - 1] == DecimalString(n / 10);
    }
  }
}
