/**
 * Worked requests: a field lookup with a full-text condition and a limit,
 * and a `closest` group whose longitude is spelled `maround`.
 */
module Scenarios {
  import opened Wrappers
  import opened Text
  import opened PercentEncoding
  import opened PathSegments
  import opened QueryGrammar
  import opened Conditions
  import opened Routes

  /** A segment a client writes as it is: non-empty, without `/` and without `%`. */
  predicate Plain(w: string)
  {
    w != [] && '/' !in w && '%' !in w
  }

  lemma SpaceUnescaped()
    ensures Unescape("mr%20ed") == "mr ed"
  {
    assert "mr%20ed"[2..] == "%20ed";
    assert Unescape("%20ed") == [' '] + Unescape("ed");
  }

  /** The path of the lookup example, with its names and values left open. */
  function LookupPath(database: string, table: string, f1: string, v1: string, f2: string, v2: string, n: string): seq<string>
  {
    [database, table, f1, "is", v1, f2, "matches", v2, "limit", n]
  }

  lemma LookupSegments(database: string, table: string, f1: string, v1: string, f2: string, v2: string, n: string)
    requires Plain(database) && Plain(table) && Plain(f1) && Plain(v1) && Plain(f2)
    requires v2 != [] && '/' !in v2 && AllDigits(n)
    ensures Segments("/" + Join(LookupPath(database, table, f1, v1, f2, v2, n), '/'))
            == Some(LookupPath(database, table, f1, v1, f2, v2, n))
  {
    forall i | 0 <= i < |n| ensures n[i] != '/' {
      assert IsDigit(n[i]);
    }
    SegmentsOfJoin(LookupPath(database, table, f1, v1, f2, v2, n));
  }

  lemma LookupMatch(t: seq<string>)
    requires |t| == 8 && t[1] == "is" && t[4] == "matches" && t[6] == "limit" && AllDigits(t[7])
    ensures MatchTail(t) == Some(Match(6, Some(t[7])))
  {
    assert LimitTail(t[6..]);
    assert MatchTail(t[6..]) == Some(Match(0, Some(t[7])));
    assert t[3..][3..] == t[6..];
    assert OpGroup(t[3..]);
    assert MatchTail(t[3..]) == Some(Match(3, Some(t[7])));
    assert OpGroup(t);
  }

  lemma LookupScan(c: seq<string>)
    requires |c| == 6 && c[1] == "is" && c[4] == "matches"
    ensures Scan(c) == [c[..3], c[3..]]
  {
    var d := c[3..];
    assert d[3..] == [] && Scan(d[3..]) == [];
    assert OpGroup(d) && d[..3] == d;
    assert Scan(d) == [d];
    assert OpGroup(c);
  }

  lemma IsToken(f: string, v: string)
    requires '%' !in f && '%' !in v
    ensures Decode([f, "is", v]) == Some(Single(Is, f, v))
  {
    var parts := UnescapeAll([f, "is", v]);
    assert parts[0] == f && parts[1] == "is" && parts[2] == v;
  }

  lemma MatchesToken(f: string, v: string)
    requires '%' !in f
    ensures Decode([f, "matches", v]) == Some(Single(Matches, f, Unescape(v)))
  {
    var parts := UnescapeAll([f, "matches", v]);
    assert parts[0] == f && parts[1] == "matches" && parts[2] == Unescape(v);
    assert parts[1] != "is";
  }

  lemma LookupOptions(f1: string, v1: string, f2: string, v2: string, limit: Option<nat>)
    requires '%' !in f1 && '%' !in v1 && '%' !in f2
    ensures Fold(Initial(limit), [[f1, "is", v1], [f2, "matches", v2]])
            == Some(ConditionOptions(map[f1 := v1], map[], map[f2 := Unescape(v2)], map[], None, None, limit))
  {
    var t0, t1 := [f1, "is", v1], [f2, "matches", v2];
    IsToken(f1, v1);
    MatchesToken(f2, v2);
    var one := Initial(limit).(whereIs := map[f1 := v1]);
    assert Apply(Initial(limit), Single(Is, f1, v1)) == one;
    FoldOne(Initial(limit), t0, Single(Is, f1, v1));
    FoldStep(Initial(limit), [t0], t1, one, Single(Matches, f2, Unescape(v2)));
    assert [t0] + [t1] == [t0, t1];
    assert Apply(one, Single(Matches, f2, Unescape(v2))) == one.(whereMatches := map[f2 := Unescape(v2)]);
  }

  /**
   * `/<database>/<table>/<f1>/is/<v1>/<f2>/matches/<v2>/limit/<n>`: one
   * exact lookup, one full-text condition (its value unescaped) and the limit.
   */
  lemma LookupWithLimit(database: string, table: string, f1: string, v1: string, f2: string, v2: string, n: string)
    requires Plain(database) && Plain(table) && Plain(f1) && Plain(v1) && Plain(f2)
    requires v2 != [] && '/' !in v2 && AllDigits(n)
    ensures QueryRequest("GET", "/" + Join(LookupPath(database, table, f1, v1, f2, v2, n), '/'))
            == Some(Query(database, table,
                     ConditionOptions(map[f1 := v1], map[], map[f2 := Unescape(v2)], map[], None, None, Some(DecimalValue(n)))))
  {
    var segs := LookupPath(database, table, f1, v1, f2, v2, n);
    LookupSegments(database, table, f1, v1, f2, v2, n);
    LookupMatch(segs[2..]);
    var c := segs[2..][..6];
    assert c == [f1, "is", v1, f2, "matches", v2];
    LookupScan(c);
    assert c[..3] == [f1, "is", v1] && c[3..] == [f2, "matches", v2];
    var m := MatchTail(segs[2..]).value;
    var tokens := Scan(segs[2..][..m.condLength]);
    assert tokens == [[f1, "is", v1], [f2, "matches", v2]];
    LimitOfDigits(n);
    assert LimitOption(m.limit) == Some(DecimalValue(n));
    LookupOptions(f1, v1, f2, v2, Some(DecimalValue(n)));
    QueryRequestFound("/" + Join(segs, '/'), segs, m,
      ConditionOptions(map[f1 := v1], map[], map[f2 := Unescape(v2)], map[], None, None, Some(DecimalValue(n))));
    assert Unescape(segs[0]) == database && Unescape(segs[1]) == table;
  }

  /**
   * `/mydb/mytable/groupid/is/2/name/matches/mr%20ed/limit/3`: `groupid` is
   * 2, `name` matches "mr ed", at most 3 rows.
   */
  lemma LookupExample()
    ensures Params("GET", "/" + Join(["mydb", "mytable", "groupid", "is", "2", "name", "matches", "mr%20ed", "limit", "3"], '/'), "")
            == Query("mydb", "mytable",
                     ConditionOptions(map["groupid" := "2"], map[], map["name" := "mr ed"], map[], None, None, Some(3)))
  {
    ExampleWords();
    LookupWithLimit("mydb", "mytable", "groupid", "2", "name", "mr%20ed", "3");
    SpaceUnescaped();
  }

  lemma ExampleWords()
    ensures Plain("mydb") && Plain("mytable") && Plain("groupid") && Plain("2") && Plain("name")
    ensures "mr%20ed" != [] && '/' !in "mr%20ed"
    ensures AllDigits("3") && DecimalValue("3") == 3
  {
  }

  lemma ClosestMaroundMatch(a: string, b: string)
    ensures MatchTail(["closest", "maround", a, b]) == Some(Match(4, None))
  {
    var s := ["closest", "maround", a, b];
    assert s[3..] == [b] && MatchTail([b]) == None;
    assert s[4..] == [] && MatchTail(s[4..]) == Some(Match(0, None));
    assert !OpGroup(s) && ClosestGroup(s) && MaroundGroup(s);
  }

  lemma ClosestMaroundScan(a: string, b: string)
    ensures Scan(["closest", "maround", a, b]) == [["closest", "maround", a]]
  {
    var s := ["closest", "maround", a, b];
    assert !OpGroup(s) && ClosestGroup(s) && s[..3] == ["closest", "maround", a];
    assert s[3..] == [b] && Scan([b][1..]) == [];
  }

  lemma ClosestMaroundToken(a: string)
    ensures Decode(["closest", "maround", a]) == Some(Closest(LonLat("maround", Unescape(a))))
  {
    var parts := UnescapeAll(["closest", "maround", a]);
    assert parts[0] == "closest";
    assert parts[1] == "maround";
    assert parts[1] != "is" && parts[1] != "contains" && parts[1] != "in";
    assert parts[1] != "matches" by {
      assert parts[1][2] == 'r' && "matches"[2] == 't';
    }
  }

  lemma ClosestMaroundDecode(a: string, limit: Option<nat>)
    ensures Fold(Initial(limit), [["closest", "maround", a]])
            == Some(Initial(limit).(closest := Some(LonLat("maround", Unescape(a)))))
  {
    var t := ["closest", "maround", a];
    var cond := Closest(LonLat("maround", Unescape(a)));
    ClosestMaroundToken(a);
    FoldOne(Initial(limit), t, cond);
    assert Apply(Initial(limit), cond) == Initial(limit).(closest := Some(cond.point));
  }

  /**
   * `/<database>/<table>/closest/maround/<a>/<b>` is accepted as one
   * `maround` group with radius `closest`, but the scan then reads it as a
   * `closest` group with longitude `maround` and latitude `a`, and drops `b`.
   */
  lemma ClosestMaroundMisread(database: string, table: string, a: string, b: string)
    requires Plain(database) && Plain(table) && a != [] && '/' !in a && b != [] && '/' !in b
    ensures Params("GET", "/" + Join([database, table, "closest", "maround", a, b], '/'), "")
            == Query(database, table, Initial(None).(closest := Some(LonLat("maround", Unescape(a)))))
  {
    var segs := [database, table, "closest", "maround", a, b];
    var tail := ["closest", "maround", a, b];
    assert ValidSegments(segs);
    SegmentsOfJoin(segs);
    assert segs[2..] == tail;
    ClosestMaroundMatch(a, b);
    var m := MatchTail(tail).value;
    assert tail[..m.condLength] == tail;
    ClosestMaroundScan(a, b);
    var tokens := Scan(tail[..m.condLength]);
    assert tokens == [["closest", "maround", a]];
    assert LimitOption(m.limit) == None;
    ClosestMaroundDecode(a, None);
    QueryRequestFound("/" + Join(segs, '/'), segs, m, Initial(None).(closest := Some(LonLat("maround", Unescape(a)))));
    assert Unescape(segs[0]) == database && Unescape(segs[1]) == table;
  }
}
