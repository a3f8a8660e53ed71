/**
 * The condition options built by the query request: four maps from field
 * names (`is`, `in`, `matches`, `contains`), the `closest` point, the
 * `maround` circle and the optional `limit`. A scanned token is decoded
 * segment by segment and dispatched on its DECODED parts, in the order of
 * the source's if/elsif chain; each condition overwrites what an earlier
 * one set under the same key.
 */
module Conditions {
  import opened Wrappers
  import opened Text
  import opened PercentEncoding
  import opened QueryGrammar

  datatype SingleOp = Is | Matches | Contains

  /** The `closest` hash: `{lon:, lat:}`. */
  datatype LonLat = LonLat(lon: string, lat: string)

  /** The `maround` hash: `{radius:, lon:, lat:}` (kept as decoded strings). */
  datatype Around = Around(radius: string, lon: string, lat: string)

  /** Where a condition is stored in the options. */
  datatype Key = SingleKey(op: SingleOp, field: string) | InKey(field: string) | ClosestKey | MaroundKey

  /** What is stored there. */
  datatype Setting = Scalar(value: string) | List(values: seq<string>) | Point(point: LonLat) | Circle(around: Around)

  /** One decoded condition token. */
  datatype Condition =
    | Single(op: SingleOp, field: string, value: string)
    | InList(field: string, values: seq<string>)
    | Closest(point: LonLat)
    | Maround(around: Around)
  {
    function Key(): Key
    {
      match this
      case Single(op, f, _) => SingleKey(op, f)
      case InList(f, _) => InKey(f)
      case Closest(_) => ClosestKey
      case Maround(_) => MaroundKey
    }

    function Setting(): Setting
    {
      match this
      case Single(_, _, v) => Scalar(v)
      case InList(_, vs) => List(vs)
      case Closest(p) => Point(p)
      case Maround(a) => Circle(a)
    }
  }

  /** The six condition kinds, always present (a kind not used is empty), and the limit. */
  datatype ConditionOptions = ConditionOptions(
    whereIs: map<string, string>,
    whereIn: map<string, seq<string>>,
    whereMatches: map<string, string>,
    whereContains: map<string, string>,
    closest: Option<LonLat>,
    maround: Option<Around>,
    limit: Option<nat>)

  /** The options before any condition token is read: the limit, and nothing stored under any key. */
  function Initial(limit: Option<nat>): (r: ConditionOptions)
    ensures r.limit == limit
    ensures forall k :: Lookup(r, k) == None
  {
    ConditionOptions(map[], map[], map[], map[], None, None, limit)
  }

  function SingleMap(c: ConditionOptions, op: SingleOp): map<string, string>
  {
    match op
    case Is => c.whereIs
    case Matches => c.whereMatches
    case Contains => c.whereContains
  }

  /** The setting stored under `k`, if any. */
  function Lookup(c: ConditionOptions, k: Key): Option<Setting>
  {
    match k
    case SingleKey(op, f) => if f in SingleMap(c, op) then Some(Scalar(SingleMap(c, op)[f])) else None
    case InKey(f) => if f in c.whereIn then Some(List(c.whereIn[f])) else None
    case ClosestKey => if c.closest.Some? then Some(Point(c.closest.value)) else None
    case MaroundKey => if c.maround.Some? then Some(Circle(c.maround.value)) else None
  }

  /**
   * Records one condition: its key now holds its setting, every other key
   * holds what it held before, and the limit is untouched.
   */
  function Apply(c: ConditionOptions, cond: Condition): (r: ConditionOptions)
    ensures r.limit == c.limit
  {
    match cond
    case Single(Is, f, v) => c.(whereIs := c.whereIs[f := v])
    case Single(Matches, f, v) => c.(whereMatches := c.whereMatches[f := v])
    case Single(Contains, f, v) => c.(whereContains := c.whereContains[f := v])
    case InList(f, vs) => c.(whereIn := c.whereIn[f := vs])
    case Closest(p) => c.(closest := Some(p))
    case Maround(a) => c.(maround := Some(a))
  }

  /**
   * What Apply records: the condition's key now holds its setting and every
   * other key holds what it held before.
   */
  lemma ApplySpec(c: ConditionOptions, cond: Condition)
    ensures forall k :: Lookup(Apply(c, cond), k) == if k == cond.Key() then Some(cond.Setting()) else Lookup(c, k)
  {
    forall k ensures Lookup(Apply(c, cond), k) == if k == cond.Key() then Some(cond.Setting()) else Lookup(c, k) {
      ApplyAt(c, cond, k);
    }
  }

  lemma ApplyAt(c: ConditionOptions, cond: Condition, k: Key)
    ensures Lookup(Apply(c, cond), k) == if k == cond.Key() then Some(cond.Setting()) else Lookup(c, k)
  {
    match cond
    case Single(op, f, v) => ApplySingleAt(c, op, f, v, k);
    case InList(f, vs) =>
      var r := Apply(c, cond);
      assert r == c.(whereIn := c.whereIn[f := vs]);
    case Closest(p) =>
      assert Apply(c, cond) == c.(closest := Some(p));
    case Maround(a) =>
      assert Apply(c, cond) == c.(maround := Some(a));
  }

  lemma ApplySingleAt(c: ConditionOptions, op: SingleOp, f: string, v: string, k: Key)
    ensures Lookup(Apply(c, Single(op, f, v)), k) == if k == SingleKey(op, f) then Some(Scalar(v)) else Lookup(c, k)
  {
    var r := Apply(c, Single(op, f, v));
    assert r.whereIn == c.whereIn && r.closest == c.closest && r.maround == c.maround;
    forall op2 ensures SingleMap(r, op2) == if op2 == op then SingleMap(c, op)[f := v] else SingleMap(c, op2) {
    }
  }

  /**
   * The body of the source's `each` loop for one scanned token, without the
   * assignment: the token's segments are decoded one by one, and the chain
   * of tests is made on the decoded parts. None is the `return unknown` branch.
   */
  function Decode(raw: seq<string>): (r: Option<Condition>)
    requires |raw| >= 3
    ensures r.None? <==>
      Unescape(raw[1]) !in {"is", "matches", "contains", "in", "maround"} && Unescape(raw[0]) != "closest"
    ensures r.Some? && (r.value.Single? || r.value.InList?) ==> r.value.field == Unescape(raw[0])
  {
    var parts := UnescapeAll(raw);
    if parts[1] == "is" then Some(Single(Is, parts[0], parts[2]))
    else if parts[1] == "matches" then Some(Single(Matches, parts[0], parts[2]))
    else if parts[1] == "contains" then Some(Single(Contains, parts[0], parts[2]))
    else if parts[1] == "in" then Some(InList(parts[0], UnescapeAll(RubySplit(raw[|raw| - 1], ','))))
    else if parts[0] == "closest" then Some(Closest(LonLat(parts[1], parts[2])))
    else if parts[1] == "maround" then Some(Maround(Around(parts[0], parts[2], if |parts| >= 4 then parts[3] else "")))
    else None
  }

  /**
   * The value segment of an `is`, `matches` or `contains` token takes no
   * part in the tests: whatever it holds (an escaped `/`, an operator name,
   * `closest`) ends up decoded in the value and nowhere else.
   */
  lemma DecodeValueLocal(raw: seq<string>, w: string)
    requires |raw| >= 3 && Decode(raw).Some? && Decode(raw).value.Single?
    ensures Decode(raw[2 := w]) == Some(Decode(raw).value.(value := Unescape(w)))
  {
    var raw' := raw[2 := w];
    assert raw'[0] == raw[0] && raw'[1] == raw[1] && raw'[2] == w;
    assert UnescapeAll(raw')[1] == UnescapeAll(raw)[1];
  }

  /**
   * Every token the scan can produce passes one of the tests, so the
   * `return unknown` branch is never taken.
   */
  lemma DecodeGroup(raw: seq<string>)
    requires IsGroup(raw)
    ensures Decode(raw).Some?
  {
    var parts := UnescapeAll(raw);
    if OpGroup(raw) || MaroundGroup(raw) {
      assert '%' !in raw[1];
      assert parts[1] == raw[1];
    } else {
      assert '%' !in raw[0];
      assert parts[0] == "closest";
    }
  }

  predicate WellFormed(tokens: seq<seq<string>>)
  {
    forall j :: 0 <= j < |tokens| ==> |tokens[j]| >= 3
  }

  /** The token decodes to a condition stored under `k`. */
  predicate SetsKey(t: seq<string>, k: Key)
  {
    |t| >= 3 && Decode(t).Some? && Decode(t).value.Key() == k
  }

  /** The options after reading the tokens in order; None once a token falls through every test. */
  function Fold(init: ConditionOptions, tokens: seq<seq<string>>): (r: Option<ConditionOptions>)
    requires WellFormed(tokens)
    ensures r.Some? ==> r.value.limit == init.limit
    decreases |tokens|
  {
    if tokens == [] then Some(init)
    else
      match Fold(init, tokens[..|tokens| - 1])
      case None => None
      case Some(c) =>
        match Decode(tokens[|tokens| - 1])
        case None => None
        case Some(cond) => Some(Apply(c, cond))
  }

  /** A successful fold succeeded on every prefix. */
  lemma {:induction false} FoldPrefix(init: ConditionOptions, tokens: seq<seq<string>>, n: nat)
    requires WellFormed(tokens) && n <= |tokens|
    requires Fold(init, tokens).Some?
    ensures Fold(init, tokens[..n]).Some?
    decreases |tokens|
  {
    if n < |tokens| {
      var front := tokens[..|tokens| - 1];
      assert front[..n] == tokens[..n];
      FoldPrefix(init, front, n);
    } else {
      assert tokens[..n] == tokens;
    }
  }

  /** The fold fails exactly when some token decodes to nothing (the `return unknown` branch). */
  lemma {:induction false} FoldFails(init: ConditionOptions, tokens: seq<seq<string>>)
    requires WellFormed(tokens)
    ensures Fold(init, tokens).None? <==> exists j :: 0 <= j < |tokens| && Decode(tokens[j]).None?
    decreases |tokens|
  {
    if tokens != [] {
      var front := tokens[..|tokens| - 1];
      FoldFails(init, front);
      if exists j :: 0 <= j < |tokens| && Decode(tokens[j]).None? {
        var j :| 0 <= j < |tokens| && Decode(tokens[j]).None?;
        if j < |tokens| - 1 {
          assert front[j] == tokens[j];
        }
      } else {
        forall j | 0 <= j < |front| ensures Decode(front[j]).Some? {
          assert front[j] == tokens[j];
        }
      }
    }
  }

  /**
   * The last condition wins: if token j is the last one stored under its key,
   * the final options hold token j's setting there.
   */
  lemma {:induction false} FoldLastWins(init: ConditionOptions, tokens: seq<seq<string>>, j: nat)
    requires WellFormed(tokens) && j < |tokens|
    requires Fold(init, tokens).Some? && Decode(tokens[j]).Some?
    requires forall i :: j < i < |tokens| ==> !SetsKey(tokens[i], Decode(tokens[j]).value.Key())
    ensures Lookup(Fold(init, tokens).value, Decode(tokens[j]).value.Key()) == Some(Decode(tokens[j]).value.Setting())
    decreases |tokens|
  {
    var front := tokens[..|tokens| - 1];
    FoldPrefix(init, tokens, |tokens| - 1);
    var cond := Decode(tokens[j]).value;
    ApplySpec(Fold(init, front).value, Decode(tokens[|tokens| - 1]).value);
    if j < |tokens| - 1 {
      assert front[j] == tokens[j];
      forall i | j < i < |front| ensures !SetsKey(front[i], cond.Key()) {
        assert front[i] == tokens[i];
      }
      FoldLastWins(init, front, j);
      assert !SetsKey(tokens[|tokens| - 1], cond.Key());
    }
  }

  /** A key no token is stored under keeps its initial setting. */
  lemma {:induction false} FoldUntouched(init: ConditionOptions, tokens: seq<seq<string>>, k: Key)
    requires WellFormed(tokens) && Fold(init, tokens).Some?
    requires forall i :: 0 <= i < |tokens| ==> !SetsKey(tokens[i], k)
    ensures Lookup(Fold(init, tokens).value, k) == Lookup(init, k)
    decreases |tokens|
  {
    if tokens != [] {
      var front := tokens[..|tokens| - 1];
      FoldPrefix(init, tokens, |tokens| - 1);
      forall i | 0 <= i < |front| ensures !SetsKey(front[i], k) {
        assert front[i] == tokens[i];
      }
      FoldUntouched(init, front, k);
      ApplySpec(Fold(init, front).value, Decode(tokens[|tokens| - 1]).value);
      assert !SetsKey(tokens[|tokens| - 1], k);
    }
  }

  /** Records already-decoded conditions in order. */
  function ApplyAll(c: ConditionOptions, conds: seq<Condition>): ConditionOptions
    decreases |conds|
  {
    if conds == [] then c else Apply(ApplyAll(c, conds[..|conds| - 1]), conds[|conds| - 1])
  }

  /** One more token read after `tokens`. */
  lemma FoldStep(init: ConditionOptions, tokens: seq<seq<string>>, t: seq<string>, c: ConditionOptions, cond: Condition)
    requires WellFormed(tokens) && |t| >= 3
    requires Fold(init, tokens) == Some(c) && Decode(t) == Some(cond)
    ensures WellFormed(tokens + [t]) && Fold(init, tokens + [t]) == Some(Apply(c, cond))
  {
    assert (tokens + [t])[..|tokens|] == tokens;
  }

  /** A single token read from the initial options. */
  lemma FoldOne(init: ConditionOptions, t: seq<string>, cond: Condition)
    requires |t| >= 3 && Decode(t) == Some(cond)
    ensures Fold(init, [t]) == Some(Apply(init, cond))
  {
    FoldStep(init, [], t, init, cond);
    assert [] + [t] == [t];
  }

  /** Folding tokens that decode to `conds` records `conds`. */
  lemma {:induction false} FoldDecoded(init: ConditionOptions, tokens: seq<seq<string>>, conds: seq<Condition>)
    requires WellFormed(tokens) && |tokens| == |conds|
    requires forall j :: 0 <= j < |tokens| ==> Decode(tokens[j]) == Some(conds[j])
    ensures Fold(init, tokens) == Some(ApplyAll(init, conds))
    decreases |tokens|
  {
    if tokens != [] {
      var front, cfront := tokens[..|tokens| - 1], conds[..|conds| - 1];
      forall j | 0 <= j < |front| ensures Decode(front[j]) == Some(cfront[j]) {
        assert front[j] == tokens[j];
      }
      FoldDecoded(init, front, cfront);
    }
  }
}
