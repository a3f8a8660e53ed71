/**
 * The query pattern of the router, read over the raw segments that follow
 * `/<database>/<table>`:
 *
 *   (condition)* (/limit/\d+)? end
 *
 * where a condition is one of three alternatives, tried in this order:
 *   1. `<field>/(in|is|matches|contains)/<value>`  (three segments)
 *   2. `closest/<lon>/<lat>`                       (three segments)
 *   3. `<radius>/maround/<lon>/<lat>`              (four segments)
 *
 * Every `[^/]+` of the pattern is followed by `/` or by the end of the
 * path, so a capture shorter than a whole segment never leads to a match:
 * matching can be described segment by segment.
 *
 * Two readings are modelled. MatchTail is the regular-expression engine's
 * backtracking search, which decides acceptance and which segments are
 * captured as conditions and which as the limit. Scan is Ruby's
 * `String#scan` over the captured conditions, which tries the alternatives
 * in order at each position and skips a segment where none matches. Conds
 * and InQueryLanguage are the language of the pattern, stated declaratively.
 */
module QueryGrammar {
  import opened Wrappers
  import opened Text

  /** Alternative 1: `<field>/(in|is|matches|contains)/<value>`. */
  predicate OpGroup(s: seq<string>)
  {
    |s| >= 3 && s[1] in {"in", "is", "matches", "contains"}
  }

  /** Alternative 2: `closest/<lon>/<lat>`. */
  predicate ClosestGroup(s: seq<string>)
  {
    |s| >= 3 && s[0] == "closest"
  }

  /** Alternative 3: `<radius>/maround/<lon>/<lat>`. */
  predicate MaroundGroup(s: seq<string>)
  {
    |s| >= 4 && s[1] == "maround"
  }

  /** Exactly `limit/<digits>`. */
  predicate LimitTail(s: seq<string>)
  {
    |s| == 2 && s[0] == "limit" && AllDigits(s[1])
  }

  /** `s` is a whole number of condition groups. */
  predicate Conds(s: seq<string>)
    decreases |s|
  {
    || s == []
    || ((OpGroup(s) || ClosestGroup(s)) && Conds(s[3..]))
    || (MaroundGroup(s) && Conds(s[4..]))
  }

  /** The language of the pattern: conditions, then optionally `limit/<digits>`. */
  predicate InQueryLanguage(s: seq<string>)
  {
    || Conds(s)
    || (|s| >= 2 && LimitTail(s[|s| - 2..]) && Conds(s[..|s| - 2]))
  }

  /** One token of the scan: a whole condition group. */
  predicate IsGroup(t: seq<string>)
  {
    || (|t| == 3 && (OpGroup(t) || ClosestGroup(t)))
    || (|t| == 4 && MaroundGroup(t))
  }

  /** What a successful match captures: the length of `conditions_string`, in segments, and the `limit` digits. */
  datatype Match = Match(condLength: nat, limit: Option<string>)

  /** `m` is a correct reading of `s`: conditions, then the captured limit or the end. */
  predicate Sound(s: seq<string>, m: Option<Match>)
  {
    m.Some? ==>
      && m.value.condLength <= |s|
      && Conds(s[..m.value.condLength])
      && (m.value.limit.None? ==> m.value.condLength == |s|)
      && (m.value.limit.Some? ==>
            LimitTail(s[m.value.condLength..]) && m.value.limit.value == s[|s| - 1])
  }

  /** A match of the rest of the path, after a first group of `n` segments. */
  function Shift(s: seq<string>, n: nat, m: Option<Match>): (r: Option<Match>)
    requires (n == 3 && (OpGroup(s) || ClosestGroup(s))) || (n == 4 && MaroundGroup(s))
    requires Sound(s[n..], m)
    ensures Sound(s, r)
    ensures r.Some? <==> m.Some?
  {
    if m.None? then None
    else
      var k := n + m.value.condLength;
      assert s[..k][n..] == s[n..][..m.value.condLength];
      assert s[k..] == s[n..][m.value.condLength..];
      Some(Match(k, m.value.limit))
  }

  /**
   * The backtracking search for the first match: another condition group is
   * tried before stopping (alternatives in order, each followed by the rest of
   * the search); after the groups, `/limit/\d+` is tried before its absence;
   * then the end of the path is required.
   */
  function MatchTail(s: seq<string>): (r: Option<Match>)
    ensures Sound(s, r)
    decreases |s|
  {
    var viaOp := if OpGroup(s) then Shift(s, 3, MatchTail(s[3..])) else None;
    if viaOp.Some? then viaOp
    else
      var viaClosest := if ClosestGroup(s) then Shift(s, 3, MatchTail(s[3..])) else None;
      if viaClosest.Some? then viaClosest
      else
        var viaMaround := if MaroundGroup(s) then Shift(s, 4, MatchTail(s[4..])) else None;
        if viaMaround.Some? then viaMaround
        else if LimitTail(s) then Some(Match(0, Some(s[1])))
        else if s == [] then Some(Match(0, None))
        else None
  }

  /** Every word of the language is found by the search. */
  lemma {:induction false} MatchTailComplete(x: seq<string>, t: seq<string>)
    requires Conds(x)
    requires t == [] || LimitTail(t)
    ensures MatchTail(x + t).Some?
    decreases |x|
  {
    var s := x + t;
    if x == [] {
      assert s == t;
    } else if (OpGroup(x) || ClosestGroup(x)) && Conds(x[3..]) {
      assert s[3..] == x[3..] + t;
      MatchTailComplete(x[3..], t);
      assert OpGroup(s) == OpGroup(x) && ClosestGroup(s) == ClosestGroup(x);
    } else {
      assert MaroundGroup(x) && Conds(x[4..]);
      assert s[4..] == x[4..] + t;
      MatchTailComplete(x[4..], t);
      assert MaroundGroup(s);
    }
  }

  /** The search accepts exactly the language of the pattern. */
  lemma MatchTailDecides(s: seq<string>)
    ensures MatchTail(s).Some? <==> InQueryLanguage(s)
  {
    if Conds(s) {
      assert s + [] == s;
      MatchTailComplete(s, []);
    } else if |s| >= 2 && LimitTail(s[|s| - 2..]) && Conds(s[..|s| - 2]) {
      assert s[..|s| - 2] + s[|s| - 2..] == s;
      MatchTailComplete(s[..|s| - 2], s[|s| - 2..]);
    }
    var m := MatchTail(s);
    if m.Some? {
      var k := m.value.condLength;
      if m.value.limit.None? {
        assert s[..k] == s;
      } else {
        assert |s| == k + 2;
        assert s[|s| - 2..] == s[k..];
      }
    }
  }

  /** Ruby's `scan` over the condition segments: the tokens, in order. */
  function Scan(s: seq<string>): (tokens: seq<seq<string>>)
    ensures forall j :: 0 <= j < |tokens| ==> IsGroup(tokens[j])
    decreases |s|
  {
    if OpGroup(s) || ClosestGroup(s) then [s[..3]] + Scan(s[3..])
    else if MaroundGroup(s) then [s[..4]] + Scan(s[4..])
    else if s == [] then []
    else Scan(s[1..])
  }

  function Flatten(tokens: seq<seq<string>>): seq<string>
  {
    if tokens == [] then [] else tokens[0] + Flatten(tokens[1..])
  }

  /**
   * No segment `closest` is directly followed by a segment `maround`. This is
   * stricter than alignment needs (it also rules out a value `closest`
   * followed by a field named `maround`), so it is a sufficient condition,
   * not an exact one.
   */
  predicate NoClosestBeforeMaround(s: seq<string>)
  {
    forall i :: 0 <= i < |s| - 1 ==> !(s[i] == "closest" && s[i + 1] == "maround")
  }

  /**
   * Where the search and the scan agree: on a sequence of condition groups in
   * which no `closest` segment precedes a `maround` segment, the scan cuts
   * the segments into groups exactly, skipping nothing. (The scan can also
   * be aligned on some sequences this excludes, such as
   * `f/is/closest/maround/is/v`.)
   */
  lemma {:induction false} ScanAligned(s: seq<string>)
    requires Conds(s)
    requires NoClosestBeforeMaround(s)
    ensures Flatten(Scan(s)) == s
    decreases |s|
  {
    if s != [] {
      if OpGroup(s) || ClosestGroup(s) {
        assert !(s[0] == "closest" && s[1] == "maround");
        assert Conds(s[3..]);
        assert NoClosestBeforeMaround(s[3..]) by {
          forall i | 0 <= i < |s[3..]| - 1
            ensures !(s[3..][i] == "closest" && s[3..][i + 1] == "maround")
          {
            assert s[3..][i] == s[i + 3] && s[3..][i + 1] == s[i + 4];
          }
        }
        ScanAligned(s[3..]);
        assert s[..3] + s[3..] == s;
      } else {
        assert MaroundGroup(s) && Conds(s[4..]);
        assert NoClosestBeforeMaround(s[4..]) by {
          forall i | 0 <= i < |s[4..]| - 1
            ensures !(s[4..][i] == "closest" && s[4..][i + 1] == "maround")
          {
            assert s[4..][i] == s[i + 4] && s[4..][i + 1] == s[i + 5];
          }
        }
        ScanAligned(s[4..]);
        assert s[..4] + s[4..] == s;
      }
    }
  }

  /**
   * Where they disagree: `closest/maround/a/b` is one `maround` group for the
   * pattern, but the scan reads `closest/maround/a` and skips `b`.
   */
  lemma ScanMisreadsClosestMaround()
    ensures InQueryLanguage(["closest", "maround", "a", "b"])
    ensures Scan(["closest", "maround", "a", "b"]) == [["closest", "maround", "a"]]
  {
    var s := ["closest", "maround", "a", "b"];
    assert MaroundGroup(s) && s[4..] == [];
    assert !OpGroup(s) && ClosestGroup(s);
    assert s[..3] == ["closest", "maround", "a"];
    var rest := s[3..];
    assert rest == ["b"];
    assert !OpGroup(rest) && !ClosestGroup(rest) && !MaroundGroup(rest);
    assert rest[1..] == [];
  }
}
