/**
 * The query grammar read backwards: a client that writes the database, the
 * table, a list of conditions and an optional limit into a path, escaping
 * every byte of every value as `%XY`, gets back exactly what it wrote: the
 * same names, and the options that recording the conditions in order gives.
 * Escaping keeps `/` and `,` inside a value from creating segments or list
 * items.
 */
module RoundTrip {
  import opened Wrappers
  import opened Text
  import opened PercentEncoding
  import opened PathSegments
  import opened QueryGrammar
  import opened Conditions
  import opened Routes

  predicate Word(s: string)
  {
    IsByteString(s) && s != []
  }

  predicate Words(vs: seq<string>)
  {
    forall i :: 0 <= i < |vs| ==> IsByteString(vs[i])
  }

  /**
   * A condition a client can write. The router compares UNESCAPED parts, so a
   * `closest` longitude spelled like an operator, or a `maround` radius
   * spelled `closest`, would be read as another kind of condition. An `in`
   * list needs a non-empty last item, because the comma split drops empty
   * trailing pieces.
   */
  predicate Writable(c: Condition)
  {
    match c
    case Single(_, f, v) => Word(f) && Word(v)
    case InList(f, vs) => Word(f) && |vs| >= 1 && vs[|vs| - 1] != [] && Words(vs)
    case Closest(p) => Word(p.lon) && Word(p.lat) && p.lon !in {"is", "matches", "contains", "in"}
    case Maround(a) => Word(a.radius) && Word(a.lon) && Word(a.lat) && a.radius != "closest"
  }

  predicate AllWritable(conds: seq<Condition>)
  {
    forall j :: 0 <= j < |conds| ==> Writable(conds[j])
  }

  function OpName(op: SingleOp): string
  {
    match op
    case Is => "is"
    case Matches => "matches"
    case Contains => "contains"
  }

  function EscapeEach(vs: seq<string>): (r: seq<string>)
    requires Words(vs)
    ensures |r| == |vs|
  {
    seq(|vs|, i requires 0 <= i < |vs| => EscapeAll(vs[i]))
  }

  /** The raw segments a client writes for one condition. */
  function Segs(c: Condition): (r: seq<string>)
    requires Writable(c)
  {
    match c
    case Single(op, f, v) => [EscapeAll(f), OpName(op), EscapeAll(v)]
    case InList(f, vs) => [EscapeAll(f), "in", Join(EscapeEach(vs), ',')]
    case Closest(p) => ["closest", EscapeAll(p.lon), EscapeAll(p.lat)]
    case Maround(a) => [EscapeAll(a.radius), "maround", EscapeAll(a.lon), EscapeAll(a.lat)]
  }

  function AllSegs(conds: seq<Condition>): seq<string>
    requires AllWritable(conds)
  {
    if conds == [] then [] else Segs(conds[0]) + AllSegs(conds[1..])
  }

  function Tokens(conds: seq<Condition>): (r: seq<seq<string>>)
    requires AllWritable(conds)
    ensures |r| == |conds|
  {
    seq(|conds|, j requires 0 <= j < |conds| => Segs(conds[j]))
  }

  function LimitSegs(limit: Option<nat>): seq<string>
  {
    match limit
    case None => []
    case Some(n) => ["limit", DecimalString(n)]
  }

  function QueryPathOf(database: string, table: string, conds: seq<Condition>, limit: Option<nat>): string
    requires IsByteString(database) && IsByteString(table) && AllWritable(conds)
  {
    "/" + Join([EscapeAll(database), EscapeAll(table)] + AllSegs(conds) + LimitSegs(limit), '/')
  }

  lemma UnescapeEscapeEach(vs: seq<string>)
    requires Words(vs)
    ensures UnescapeAll(EscapeEach(vs)) == vs
  {
    forall i | 0 <= i < |vs| ensures UnescapeAll(EscapeEach(vs))[i] == vs[i] {
      UnescapeEscapeAll(vs[i]);
    }
  }

  /** The comma-joined list splits back into its escaped items. */
  lemma ListSegment(vs: seq<string>)
    requires |vs| >= 1 && vs[|vs| - 1] != [] && Words(vs)
    ensures RubySplit(Join(EscapeEach(vs), ','), ',') == EscapeEach(vs)
    ensures Join(EscapeEach(vs), ',') != [] && '/' !in Join(EscapeEach(vs), ',')
  {
    var es := EscapeEach(vs);
    forall i | 0 <= i < |es| ensures ',' !in es[i] && '/' !in es[i] {
      EscapedHasNoSeparators(vs[i]);
    }
    RubySplitJoin(es, ',');
    JoinAvoids(es, ',', '/');
  }

  lemma UnescapeWord(w: string)
    requires '%' !in w
    ensures Unescape(w) == w
  {
  }

  lemma DecodeSingle(op: SingleOp, f: string, v: string)
    requires Writable(Single(op, f, v))
    ensures Decode(Segs(Single(op, f, v))) == Some(Single(op, f, v))
  {
    UnescapeEscapeAll(f);
    UnescapeEscapeAll(v);
    UnescapeWord(OpName(op));
  }

  lemma DecodeInList(f: string, vs: seq<string>)
    requires Writable(InList(f, vs))
    ensures Decode(Segs(InList(f, vs))) == Some(InList(f, vs))
  {
    UnescapeEscapeAll(f);
    UnescapeWord("in");
    ListSegment(vs);
    UnescapeEscapeEach(vs);
  }

  lemma DecodeClosest(p: LonLat)
    requires Writable(Closest(p))
    ensures Decode(Segs(Closest(p))) == Some(Closest(p))
  {
    UnescapeWord("closest");
    UnescapeEscapeAll(p.lon);
    UnescapeEscapeAll(p.lat);
  }

  /** A token whose unescaped second part is `maround` and whose first is not `closest`. */
  lemma DecodeMaroundParts(raw: seq<string>)
    requires |raw| >= 4
    requires UnescapeAll(raw)[1] == "maround" && UnescapeAll(raw)[0] != "closest"
    ensures Decode(raw) == Some(Maround(Around(UnescapeAll(raw)[0], UnescapeAll(raw)[2], UnescapeAll(raw)[3])))
  {
    assert "maround"[1] == 'a';
  }

  lemma DecodeMaround(a: Around)
    requires Writable(Maround(a))
    ensures Decode(Segs(Maround(a))) == Some(Maround(a))
  {
    var raw := [EscapeAll(a.radius), "maround", EscapeAll(a.lon), EscapeAll(a.lat)];
    assert raw == Segs(Maround(a));
    UnescapeEscapeAll(a.radius);
    UnescapeEscapeAll(a.lon);
    UnescapeEscapeAll(a.lat);
    UnescapeWord("maround");
    var parts := UnescapeAll(raw);
    assert parts[0] == a.radius;
    assert parts[1] == "maround";
    assert parts[2] == a.lon;
    assert parts[3] == a.lat;
    DecodeMaroundParts(raw);
  }

  /** Each written condition is read back as itself. */
  lemma DecodeSegs(c: Condition)
    requires Writable(c)
    ensures Decode(Segs(c)) == Some(c)
  {
    match c
    case Single(op, f, v) => DecodeSingle(op, f, v);
    case InList(f, vs) => DecodeInList(f, vs);
    case Closest(p) => DecodeClosest(p);
    case Maround(a) => DecodeMaround(a);
  }

  predicate SegmentWord(w: string)
  {
    w != [] && '/' !in w
  }

  lemma EscapedSegment(s: string)
    requires Word(s)
    ensures SegmentWord(EscapeAll(s))
  {
    EscapedHasNoSeparators(s);
  }

  lemma AllSegmentWords(ws: seq<string>)
    requires forall i :: 0 <= i < |ws| ==> SegmentWord(ws[i])
    ensures forall i :: 0 <= i < |ws| ==> ws[i] != [] && '/' !in ws[i]
  {
  }

  /** Every written segment is a valid path segment. */
  lemma SegsValid(c: Condition)
    requires Writable(c)
    ensures forall i :: 0 <= i < |Segs(c)| ==> Segs(c)[i] != [] && '/' !in Segs(c)[i]
  {
    var ws := Segs(c);
    match c
    case Single(op, f, v) =>
      EscapedSegment(f);
      EscapedSegment(v);
      assert SegmentWord(OpName(op));
      assert SegmentWord(ws[0]) && SegmentWord(ws[1]) && SegmentWord(ws[2]);
    case InList(f, vs) =>
      EscapedSegment(f);
      ListSegment(vs);
      assert SegmentWord(ws[0]) && SegmentWord(ws[1]) && SegmentWord(ws[2]);
    case Closest(p) =>
      EscapedSegment(p.lon);
      EscapedSegment(p.lat);
      assert SegmentWord(ws[0]) && SegmentWord(ws[1]) && SegmentWord(ws[2]);
    case Maround(a) =>
      EscapedSegment(a.radius);
      EscapedSegment(a.lon);
      EscapedSegment(a.lat);
      assert SegmentWord(ws[0]) && SegmentWord(ws[1]) && SegmentWord(ws[2]) && SegmentWord(ws[3]);
    AllSegmentWords(ws);
  }

  lemma {:induction false} AllSegsValid(conds: seq<Condition>)
    requires AllWritable(conds)
    ensures forall i :: 0 <= i < |AllSegs(conds)| ==> AllSegs(conds)[i] != [] && '/' !in AllSegs(conds)[i]
    decreases |conds|
  {
    if conds != [] {
      SegsValid(conds[0]);
      AllSegsValid(conds[1..]);
    }
  }

  /** Where a written condition starts, the pattern's alternatives see exactly its group. */
  lemma SegsAlternative(c: Condition, rest: seq<string>)
    requires Writable(c)
    ensures var s := Segs(c) + rest;
      && (c.Single? || c.InList? ==> OpGroup(s) && |Segs(c)| == 3)
      && (c.Closest? ==> !OpGroup(s) && ClosestGroup(s) && |Segs(c)| == 3)
      && (c.Maround? ==> !OpGroup(s) && !ClosestGroup(s) && MaroundGroup(s) && |Segs(c)| == 4)
  {
    match c
    case Single(op, f, v) =>
    case InList(f, vs) =>
    case Closest(p) =>
      EscapedIsNoWord(p.lon, "is");
      EscapedIsNoWord(p.lon, "in");
      EscapedIsNoWord(p.lon, "matches");
      EscapedIsNoWord(p.lon, "contains");
    case Maround(a) =>
      EscapedIsNoWord(a.radius, "closest");
  }

  /** The scan takes a written condition as one token. */
  lemma ScanSegs(c: Condition, rest: seq<string>)
    requires Writable(c)
    ensures Scan(Segs(c) + rest) == [Segs(c)] + Scan(rest)
  {
    var s := Segs(c) + rest;
    SegsAlternative(c, rest);
    assert s[..|Segs(c)|] == Segs(c) && s[|Segs(c)|..] == rest;
  }

  /** The scan reads the written conditions back token by token. */
  lemma {:induction false} ScanAllSegs(conds: seq<Condition>)
    requires AllWritable(conds)
    ensures Scan(AllSegs(conds)) == Tokens(conds)
    decreases |conds|
  {
    if conds != [] {
      ScanSegs(conds[0], AllSegs(conds[1..]));
      ScanAllSegs(conds[1..]);
      assert Tokens(conds) == [Segs(conds[0])] + Tokens(conds[1..]);
    }
  }

  /** The search takes the written conditions as conditions and the written limit as the limit. */
  lemma {:induction false} MatchAllSegs(conds: seq<Condition>, limit: Option<nat>)
    requires AllWritable(conds)
    ensures MatchTail(AllSegs(conds) + LimitSegs(limit))
            == Some(Match(|AllSegs(conds)|, if limit.None? then None else Some(DecimalString(limit.value))))
    decreases |conds|
  {
    var s := AllSegs(conds) + LimitSegs(limit);
    if conds == [] {
      assert s == LimitSegs(limit);
    } else {
      var c, rest := conds[0], AllSegs(conds[1..]);
      SegsAlternative(c, rest + LimitSegs(limit));
      assert s == Segs(c) + (rest + LimitSegs(limit));
      assert s[|Segs(c)|..] == rest + LimitSegs(limit);
      MatchAllSegs(conds[1..], limit);
    }
  }

  /** The written path splits into the escaped names, the condition segments and the limit segments. */
  lemma SegmentsOfQueryPath(database: string, table: string, conds: seq<Condition>, limit: Option<nat>)
    requires Word(database) && Word(table) && AllWritable(conds)
    ensures Segments(QueryPathOf(database, table, conds, limit))
            == Some([EscapeAll(database), EscapeAll(table)] + AllSegs(conds) + LimitSegs(limit))
  {
    var segs := [EscapeAll(database), EscapeAll(table)] + AllSegs(conds) + LimitSegs(limit);
    EscapedHasNoSeparators(database);
    EscapedHasNoSeparators(table);
    AllSegsValid(conds);
    if limit.Some? {
      var d := DecimalString(limit.value);
      forall i | 0 <= i < |d| ensures d[i] != '/' {
        assert IsDigit(d[i]);
      }
    }
    assert ValidSegments(segs);
    SegmentsOfJoin(segs);
  }

  /** The written limit is read back as the same number. */
  lemma LimitRoundTrip(limit: Option<nat>)
    ensures LimitOption(if limit.None? then None else Some(DecimalString(limit.value))) == limit
  {
    if limit.Some? {
      LimitOfDigits(DecimalString(limit.value));
      DecimalRoundTrip(limit.value);
    }
  }

  /** Reading the written tokens records the conditions in order. */
  lemma FoldTokens(init: ConditionOptions, conds: seq<Condition>)
    requires AllWritable(conds)
    ensures Fold(init, Tokens(conds)) == Some(ApplyAll(init, conds))
  {
    forall j | 0 <= j < |conds| ensures Decode(Tokens(conds)[j]) == Some(conds[j]) {
      DecodeSegs(conds[j]);
    }
    FoldDecoded(init, Tokens(conds), conds);
  }

  /** The written conditions and limit are matched, scanned and read back. */
  lemma TailRead(conds: seq<Condition>, limit: Option<nat>)
    requires AllWritable(conds)
    ensures var tail := AllSegs(conds) + LimitSegs(limit);
      && MatchTail(tail).Some?
      && Fold(Initial(LimitOption(MatchTail(tail).value.limit)), Scan(tail[..MatchTail(tail).value.condLength]))
         == Some(ApplyAll(Initial(limit), conds))
  {
    var tail := AllSegs(conds) + LimitSegs(limit);
    MatchAllSegs(conds, limit);
    var m := MatchTail(tail).value;
    assert tail[..m.condLength] == AllSegs(conds);
    ScanAllSegs(conds);
    LimitRoundTrip(limit);
    FoldTokens(Initial(limit), conds);
  }

  /** The query request on a written path, step by step. */
  lemma QueryRequestOfQueryPath(database: string, table: string, conds: seq<Condition>, limit: Option<nat>)
    requires Word(database) && Word(table) && AllWritable(conds)
    ensures QueryRequest("GET", QueryPathOf(database, table, conds, limit))
            == Some(Query(database, table, ApplyAll(Initial(limit), conds)))
  {
    var tail := AllSegs(conds) + LimitSegs(limit);
    var segs := [EscapeAll(database), EscapeAll(table)] + AllSegs(conds) + LimitSegs(limit);
    SegmentsOfQueryPath(database, table, conds, limit);
    assert segs[2..] == tail;
    TailRead(conds, limit);
    QueryRequestFound(QueryPathOf(database, table, conds, limit), segs, MatchTail(tail).value, ApplyAll(Initial(limit), conds));
    assert segs[0] == EscapeAll(database) && segs[1] == EscapeAll(table);
    UnescapeEscapeAll(database);
    UnescapeEscapeAll(table);
  }

  /**
   * Writing a query into a path and reading it back gives the database, the
   * table, and the options that recording the conditions in order gives,
   * with the written limit.
   */
  lemma QueryRoundTrip(database: string, table: string, conds: seq<Condition>, limit: Option<nat>, body: string)
    requires Word(database) && Word(table) && AllWritable(conds)
    ensures Params("GET", QueryPathOf(database, table, conds, limit), body)
            == Query(database, table, ApplyAll(Initial(limit), conds))
  {
    QueryRequestOfQueryPath(database, table, conds, limit);
  }
}
