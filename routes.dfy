/**
 * The router: from an HTTP method, a URL path and a request body to an
 * action descriptor. The query grammar is tried first, then the CRUD
 * grammar; when neither applies the descriptor is `{action: :unknown}`.
 */
module Routes {
  import opened Wrappers
  import opened Text
  import opened PercentEncoding
  import opened PathSegments
  import opened QueryGrammar
  import opened Conditions

  datatype CrudAction = Read | Create | Delete | Update

  /** The keys of a CRUD descriptor, in the order the source builds them. */
  datatype Field = ActionKey | DatabaseKey | TableKey | IdKey | BodyKey

  /** A hash value: the action symbol or a string. */
  datatype Value = Sym(action: CrudAction) | Str(text: string)

  datatype Entry = Entry(key: Field, value: Value)

  /** The three shapes `params` can return. */
  datatype Descriptor =
    | Query(database: string, table: string, conditions: ConditionOptions)
    | Crud(entries: seq<Entry>)
    | Unknown

  // ---------------------------------------------------------------- query

  /**
   * The `:limit` option: the captured digits (nothing when not captured) are
   * unescaped and converted to a number; an empty result sets no limit.
   */
  function LimitOption(captured: Option<string>): (r: Option<nat>)
    ensures r.Some? <==> captured.Some? && captured.value != []
  {
    var s := Unescape(if captured.Some? then captured.value else "");
    if s == [] then None else Some(DecimalValue(s))
  }

  /** Captured digits are taken as their decimal value. */
  lemma LimitOfDigits(digits: string)
    requires AllDigits(digits)
    ensures LimitOption(Some(digits)) == Some(DecimalValue(digits))
  {
    assert '%' !in digits by {
      forall i | 0 <= i < |digits| ensures digits[i] != '%' {
        assert IsDigit(digits[i]);
      }
    }
  }

  /**
   * The query request as a function of the method and the path; None stands
   * for `nil`. It answers exactly the GETs on a query path, and always with a
   * query: the loop's `unknown` never comes out.
   */
  function QueryRequest(requestMethod: string, path: string): (r: Option<Descriptor>)
    ensures r.Some? <==> requestMethod == "GET" && QueryPath(path)
    ensures r.Some? ==> r.value.Query?
  {
    if requestMethod != "GET" then None
    else
      match Segments(path)
      case None => None
      case Some(segs) =>
        if |segs| < 2 then None
        else
          MatchTailDecides(segs[2..]);
          match MatchTail(segs[2..])
          case None => None
          case Some(m) =>
            var tokens := Scan(segs[2..][..m.condLength]);
            ScanIsRead(Initial(LimitOption(m.limit)), segs[2..][..m.condLength]);
            match Fold(Initial(LimitOption(m.limit)), tokens)
            case None => Some(Unknown)
            case Some(c) => Some(Query(Unescape(segs[0]), Unescape(segs[1]), c))
  }

  /**
   * The query request as the source runs it: the whole-path match, then the
   * scanned condition tokens are read into the condition hashes.
   */
  method QueryRequestParams(requestMethod: string, path: string) returns (r: Option<Descriptor>)
    ensures r == QueryRequest(requestMethod, path)
  {
    if requestMethod != "GET" {
      return None;
    }
    var found := Segments(path);
    if found.None? || |found.value| < 2 {
      return None;
    }
    var segs := found.value;
    var mainMatch := MatchTail(segs[2..]);
    if mainMatch.None? {
      return None;
    }
    var limit := LimitOption(mainMatch.value.limit);
    var tokens := Scan(segs[2..][..mainMatch.value.condLength]);
    var options := ReadConditions(Initial(limit), tokens);
    if options.None? {
      return Some(Unknown);
    }
    r := Some(Query(Unescape(segs[0]), Unescape(segs[1]), options.value));
  }

  /**
   * The `each` loop over the scanned tokens: the condition hashes are filled
   * in order, a later token overwriting an earlier one under the same key,
   * with an early return (None) when a token passes none of the tests.
   */
  method ReadConditions(init: ConditionOptions, tokens: seq<seq<string>>) returns (r: Option<ConditionOptions>)
    requires WellFormed(tokens)
    ensures r == Fold(init, tokens)
  {
    var options := init;
    var i := 0;
    assert tokens[..0] == [];
    while i < |tokens|
      invariant 0 <= i <= |tokens|
      invariant Fold(init, tokens[..i]) == Some(options)
    {
      var next := ReadToken(options, tokens[i]);
      assert tokens[..i + 1][..i] == tokens[..i];
      if next.None? {
        FoldFails(init, tokens);
        return None;
      }
      options := next.value;
      i := i + 1;
    }
    assert tokens[..i] == tokens;
    r := Some(options);
  }

  /**
   * One pass of the loop body: the token's segments are unescaped one by one
   * and the chain of tests, made on the unescaped parts, picks the hash to
   * update; the `in` list is split on the commas of the still-escaped last
   * segment before its items are unescaped.
   */
  method ReadToken(options: ConditionOptions, escaped: seq<string>) returns (r: Option<ConditionOptions>)
    requires |escaped| >= 3
    ensures r == if Decode(escaped).Some? then Some(Apply(options, Decode(escaped).value)) else None
  {
    var parts := UnescapeAll(escaped);
    if parts[1] == "is" {
      r := Some(options.(whereIs := options.whereIs[parts[0] := parts[2]]));
      assert Decode(escaped) == Some(Single(Is, parts[0], parts[2]));
    } else if parts[1] == "matches" {
      r := Some(options.(whereMatches := options.whereMatches[parts[0] := parts[2]]));
      assert Decode(escaped) == Some(Single(Matches, parts[0], parts[2]));
    } else if parts[1] == "contains" {
      r := Some(options.(whereContains := options.whereContains[parts[0] := parts[2]]));
      assert Decode(escaped) == Some(Single(Contains, parts[0], parts[2]));
    } else if parts[1] == "in" {
      var values := UnescapeAll(RubySplit(escaped[|escaped| - 1], ','));
      r := Some(options.(whereIn := options.whereIn[parts[0] := values]));
      assert Decode(escaped) == Some(InList(parts[0], values));
    } else if parts[0] == "closest" {
      r := Some(options.(closest := Some(LonLat(parts[1], parts[2]))));
      assert Decode(escaped) == Some(Closest(LonLat(parts[1], parts[2])));
    } else if parts[1] == "maround" {
      var around := Around(parts[0], parts[2], if |parts| >= 4 then parts[3] else "");
      r := Some(options.(maround := Some(around)));
      assert Decode(escaped) == Some(Maround(around));
    } else {
      r := None;
      assert Decode(escaped) == None;
    }
  }

  /**
   * What the query grammar decides: a query is returned exactly for a GET
   * whose path is `/<database>/<table>` followed by a word of the query
   * language; it is always a query (never the `unknown` of the loop's early
   * return), with the database and table unescaped, and the limit set
   * exactly when the path ends in a captured `limit/<digits>`, to the value
   * of those digits.
   */
  lemma QueryRequestSpec(requestMethod: string, path: string)
    ensures QueryRequest(requestMethod, path).Some? <==> requestMethod == "GET" && QueryPath(path)
    ensures QueryRequest(requestMethod, path).Some? ==>
      var segs := Segments(path).value;
      var d := QueryRequest(requestMethod, path).value;
      && d.Query?
      && d.database == Unescape(segs[0]) && d.table == Unescape(segs[1])
      && (d.conditions.limit.None? ==> Conds(segs[2..]))
      && (d.conditions.limit.Some? ==>
            LimitTail(segs[|segs| - 2..]) && d.conditions.limit.value == DecimalValue(segs[|segs| - 1]))
  {
    if requestMethod == "GET" && Segments(path).Some? && |Segments(path).value| >= 2 {
      var segs := Segments(path).value;
      var tail := segs[2..];
      MatchTailDecides(tail);
      var m := MatchTail(tail);
      if m.Some? {
        ScanIsRead(Initial(LimitOption(m.value.limit)), tail[..m.value.condLength]);
        if m.value.limit.Some? {
          LimitOfDigits(m.value.limit.value);
          assert tail[m.value.condLength..] == segs[|segs| - 2..];
        } else {
          assert tail[..m.value.condLength] == tail;
        }
      }
    }
  }

  /** The query request once each of its steps is known. */
  lemma QueryRequestFound(path: string, segs: seq<string>, m: Match, c: ConditionOptions)
    requires Segments(path) == Some(segs) && |segs| >= 2
    requires MatchTail(segs[2..]) == Some(m)
    requires Fold(Initial(LimitOption(m.limit)), Scan(segs[2..][..m.condLength])) == Some(c)
    ensures QueryRequest("GET", path) == Some(Query(Unescape(segs[0]), Unescape(segs[1]), c))
  {
  }

  /** Every token of a scan decodes, so reading them never takes the `unknown` return. */
  lemma ScanIsRead(init: ConditionOptions, s: seq<string>)
    ensures Fold(init, Scan(s)).Some?
  {
    var tokens := Scan(s);
    forall j | 0 <= j < |tokens| ensures Decode(tokens[j]).Some? {
      DecodeGroup(tokens[j]);
    }
    FoldFails(init, tokens);
  }

  /** The path is `/<database>/<table>` followed by a word of the query language. */
  predicate QueryPath(path: string)
  {
    && Segments(path).Some?
    && |Segments(path).value| >= 2
    && InQueryLanguage(Segments(path).value[2..])
  }

  // ----------------------------------------------------------------- CRUD

  /** `crud_action`: the HTTP method's CRUD action, or None (`nil`) for any other method. */
  function CrudActionOf(requestMethod: string): (r: Option<CrudAction>)
    ensures r.Some? <==> requestMethod in {"GET", "POST", "DELETE", "PUT"}
    ensures r.Some? ==> (NeedsId(r.value) <==> requestMethod != "POST")
    ensures r.Some? ==> (NeedsBody(r.value) <==> requestMethod in {"POST", "PUT"})
  {
    if requestMethod == "GET" then Some(Read)
    else if requestMethod == "POST" then Some(Create)
    else if requestMethod == "DELETE" then Some(Delete)
    else if requestMethod == "PUT" then Some(Update)
    else None
  }

  /** `v.empty?`: no action symbol is empty. */
  predicate IsEmpty(v: Value)
  {
    v.Str? && v.text == []
  }

  /** `without_empties`: the entries whose value is not empty, in their order. */
  function WithoutEmpties(entries: seq<Entry>): (r: seq<Entry>)
    ensures |r| <= |entries|
    ensures forall i :: 0 <= i < |r| ==> !IsEmpty(r[i].value)
    decreases |entries|
  {
    if entries == [] then []
    else (if IsEmpty(entries[0].value) then [] else [entries[0]]) + WithoutEmpties(entries[1..])
  }

  /** Exactly the non-empty entries are kept; nothing changes when none is empty. */
  lemma {:induction false} WithoutEmptiesKeeps(entries: seq<Entry>)
    ensures forall e :: e in WithoutEmpties(entries) <==> e in entries && !IsEmpty(e.value)
    ensures (forall i :: 0 <= i < |entries| ==> !IsEmpty(entries[i].value)) ==> WithoutEmpties(entries) == entries
    decreases |entries|
  {
    if entries != [] {
      WithoutEmptiesKeeps(entries[1..]);
      assert entries == [entries[0]] + entries[1..];
    }
  }

  function Keys(entries: seq<Entry>): seq<Field>
  {
    seq(|entries|, i requires 0 <= i < |entries| => entries[i].key)
  }

  /** `keys_required_by_action`: action, database and table, then the id and the body where the action needs them. */
  function RequiredKeys(a: CrudAction): (r: seq<Field>)
    ensures r == [ActionKey, DatabaseKey, TableKey]
                 + (if NeedsId(a) then [IdKey] else []) + (if NeedsBody(a) then [BodyKey] else [])
  {
    match a
    case Read => [ActionKey, DatabaseKey, TableKey, IdKey]
    case Create => [ActionKey, DatabaseKey, TableKey, BodyKey]
    case Delete => [ActionKey, DatabaseKey, TableKey, IdKey]
    case Update => [ActionKey, DatabaseKey, TableKey, IdKey, BodyKey]
  }

  /** `params_if_valid`: the entries when their key list is exactly the one the action requires. */
  function ParamsIfValid(a: CrudAction, entries: seq<Entry>): (r: Option<seq<Entry>>)
    ensures r.Some? ==> r.value == entries
    ensures r.Some? <==> HasRequiredFields(a, entries)
  {
    KeysMatch(a, entries);
    if Keys(entries) == RequiredKeys(a) then Some(entries) else None
  }

  /** The entries hold the action's required fields, read per field: action, database, table, then id and body as needed. */
  predicate HasRequiredFields(a: CrudAction, entries: seq<Entry>)
  {
    && |entries| == 3 + (if NeedsId(a) then 1 else 0) + (if NeedsBody(a) then 1 else 0)
    && entries[0].key == ActionKey && entries[1].key == DatabaseKey && entries[2].key == TableKey
    && (NeedsId(a) ==> entries[3].key == IdKey)
    && (NeedsBody(a) ==> entries[|entries| - 1].key == BodyKey)
  }

  lemma KeysMatch(a: CrudAction, entries: seq<Entry>)
    ensures Keys(entries) == RequiredKeys(a) <==> HasRequiredFields(a, entries)
  {
    var keys, req := Keys(entries), RequiredKeys(a);
    if HasRequiredFields(a, entries) {
      assert |keys| == |req|;
      forall i | 0 <= i < |keys| ensures keys[i] == req[i] {
      }
    } else if keys == req {
      assert forall i :: 0 <= i < |entries| ==> entries[i].key == req[i];
    }
  }

  /** `crud_request_params`; None stands for `nil`. */
  function CrudRequest(requestMethod: string, path: string, body: string): (r: Option<seq<Entry>>)
    ensures r.Some? ==> CrudActionOf(requestMethod).Some?
    ensures r.Some? ==> Keys(r.value) == RequiredKeys(CrudActionOf(requestMethod).value)
    ensures r.Some? ==> forall i :: 0 <= i < |r.value| ==> !IsEmpty(r.value[i].value)
  {
    match CrudActionOf(requestMethod)
    case None => None
    case Some(a) =>
      match Segments(path)
      case None => None
      case Some(segs) =>
        if |segs| == 2 || |segs| == 3 then
          var id := if |segs| == 3 then Unescape(segs[2]) else "";
          ParamsIfValid(a, WithoutEmpties([
            Entry(ActionKey, Sym(a)),
            Entry(DatabaseKey, Str(Unescape(segs[0]))),
            Entry(TableKey, Str(Unescape(segs[1]))),
            Entry(IdKey, Str(id)),
            Entry(BodyKey, Str(body))]))
        else None
  }

  /** Which actions take an id, and which a body (the required-field table, read per field). */
  predicate NeedsId(a: CrudAction) { a != Create }
  predicate NeedsBody(a: CrudAction) { a == Create || a == Update }

  /** The descriptor of an accepted CRUD request, stated field by field. */
  function Describe(a: CrudAction, database: string, table: string, id: string, body: string): seq<Entry>
  {
    [Entry(ActionKey, Sym(a)), Entry(DatabaseKey, Str(database)), Entry(TableKey, Str(table))]
    + (if NeedsId(a) then [Entry(IdKey, Str(id))] else [])
    + (if NeedsBody(a) then [Entry(BodyKey, Str(body))] else [])
  }

  /**
   * The CRUD grammar applies to the four methods and to `/<database>/<table>`
   * with at most one more segment; the path carries an id exactly when the
   * action needs one, and the body is non-empty exactly when the action
   * needs one.
   */
  predicate CrudShape(requestMethod: string, path: string, body: string)
  {
    && CrudActionOf(requestMethod).Some?
    && Segments(path).Some?
    && var a, segs := CrudActionOf(requestMethod).value, Segments(path).value;
    && (|segs| == 2 || |segs| == 3)
    && (|segs| == 3 <==> NeedsId(a))
    && (body != [] <==> NeedsBody(a))
  }

  /** The accepted descriptor: the action, the unescaped names and id, and the body verbatim. */
  function Expected(requestMethod: string, path: string, body: string): seq<Entry>
    requires CrudShape(requestMethod, path, body)
  {
    var segs := Segments(path).value;
    Describe(CrudActionOf(requestMethod).value, Unescape(segs[0]), Unescape(segs[1]),
             if |segs| == 3 then Unescape(segs[2]) else "", body)
  }

  lemma WithoutEmptiesCons(e: Entry, rest: seq<Entry>)
    ensures WithoutEmpties([e] + rest) == (if IsEmpty(e.value) then [] else [e]) + WithoutEmpties(rest)
  {
    assert ([e] + rest)[1..] == rest;
  }

  /** The five entries the source builds, with the action, database and table never empty. */
  lemma WithoutEmptiesFive(e0: Entry, e1: Entry, e2: Entry, e3: Entry, e4: Entry)
    requires !IsEmpty(e0.value) && !IsEmpty(e1.value) && !IsEmpty(e2.value)
    ensures WithoutEmpties([e0, e1, e2, e3, e4])
            == [e0, e1, e2] + (if IsEmpty(e3.value) then [] else [e3]) + (if IsEmpty(e4.value) then [] else [e4])
  {
    WithoutEmptiesCons(e4, []);
    WithoutEmptiesCons(e3, [e4]);
    WithoutEmptiesCons(e2, [e3, e4]);
    WithoutEmptiesCons(e1, [e2, e3, e4]);
    WithoutEmptiesCons(e0, [e1, e2, e3, e4]);
    assert [e4] + [] == [e4];
    assert [e3] + [e4] == [e3, e4];
    assert [e2] + [e3, e4] == [e2, e3, e4];
    assert [e1] + [e2, e3, e4] == [e1, e2, e3, e4];
    assert [e0] + [e1, e2, e3, e4] == [e0, e1, e2, e3, e4];
  }

  /** The CRUD grammar accepts exactly the requests of CrudShape, and returns their Expected descriptor. */
  lemma CrudRequestSpec(requestMethod: string, path: string, body: string)
    ensures CrudRequest(requestMethod, path, body).Some? <==> CrudShape(requestMethod, path, body)
    ensures CrudShape(requestMethod, path, body) ==>
              CrudRequest(requestMethod, path, body) == Some(Expected(requestMethod, path, body))
  {
    if CrudActionOf(requestMethod).Some? && Segments(path).Some? {
      var a, segs := CrudActionOf(requestMethod).value, Segments(path).value;
      if |segs| == 2 || |segs| == 3 {
        var id := if |segs| == 3 then Unescape(segs[2]) else "";
        var e0, e1, e2, e3, e4 := Entry(ActionKey, Sym(a)), Entry(DatabaseKey, Str(Unescape(segs[0]))),
          Entry(TableKey, Str(Unescape(segs[1]))), Entry(IdKey, Str(id)), Entry(BodyKey, Str(body));
        WithoutEmptiesFive(e0, e1, e2, e3, e4);
        var kept := WithoutEmpties([e0, e1, e2, e3, e4]);
        assert IsEmpty(e3.value) <==> |segs| == 2;
        var keys := [ActionKey, DatabaseKey, TableKey]
          + (if IsEmpty(e3.value) then [] else [IdKey]) + (if IsEmpty(e4.value) then [] else [BodyKey]);
        assert Keys(kept) == keys;
        assert |keys| == 3 + (if |segs| == 3 then 1 else 0) + (if body != [] then 1 else 0);
        assert |keys| == 4 ==> keys[3] == if |segs| == 3 then IdKey else BodyKey;
        assert |keys| == 5 ==> keys[3] == IdKey && keys[4] == BodyKey;
        assert keys == RequiredKeys(a) <==> (|segs| == 3 <==> NeedsId(a)) && (body != [] <==> NeedsBody(a));
      }
    }
  }

  // --------------------------------------------------------------- params

  /** `params`: the query grammar first, then the CRUD grammar, else `{action: :unknown}`. */
  function Params(requestMethod: string, path: string, body: string): (r: Descriptor)
    ensures r.Query? ==> requestMethod == "GET"
    ensures r.Crud? ==> requestMethod in {"GET", "POST", "DELETE", "PUT"}
  {
    match QueryRequest(requestMethod, path)
    case Some(d) => d
    case None =>
      match CrudRequest(requestMethod, path, body)
      case Some(entries) => Crud(entries)
      case None => Unknown
  }

  /**
   * The fallback order: a GET on a query path is always a query; any other
   * request is the CRUD descriptor when the CRUD grammar accepts it, and
   * otherwise exactly `unknown`.
   */
  lemma ParamsFallback(requestMethod: string, path: string, body: string)
    ensures requestMethod == "GET" && QueryPath(path) ==> Params(requestMethod, path, body).Query?
    ensures !(requestMethod == "GET" && QueryPath(path)) ==>
      Params(requestMethod, path, body)
      == if CrudShape(requestMethod, path, body) then Crud(Expected(requestMethod, path, body)) else Unknown
  {
    QueryRequestSpec(requestMethod, path);
    CrudRequestSpec(requestMethod, path, body);
  }

  /** `GET /<db>/<table>` is always a query with no condition and no limit, never a read. */
  lemma GetTableIsQuery(path: string, body: string)
    requires Segments(path).Some? && |Segments(path).value| == 2
    ensures Params("GET", path, body)
            == Query(Unescape(Segments(path).value[0]), Unescape(Segments(path).value[1]), Initial(None))
  {
    var segs := Segments(path).value;
    assert segs[2..] == [];
    assert MatchTail([]) == Some(Match(0, None));
    assert Scan([]) == [];
  }

  /** A single segment after the table is never a word of the query language. */
  lemma OneSegmentIsNoQuery(path: string)
    requires Segments(path).Some? && |Segments(path).value| == 3
    ensures QueryRequest("GET", path) == None
  {
    var segs := Segments(path).value;
    var tail := segs[2..];
    assert |tail| == 1;
    assert !OpGroup(tail) && !ClosestGroup(tail) && !MaroundGroup(tail) && !LimitTail(tail);
  }

  /** `GET /<db>/<table>/<id>` with an empty body reads that id. */
  lemma GetIdIsRead(path: string)
    requires Segments(path).Some? && |Segments(path).value| == 3
    ensures var segs := Segments(path).value;
            Params("GET", path, "")
            == Crud([Entry(ActionKey, Sym(Read)), Entry(DatabaseKey, Str(Unescape(segs[0]))),
                     Entry(TableKey, Str(Unescape(segs[1]))), Entry(IdKey, Str(Unescape(segs[2])))])
  {
    OneSegmentIsNoQuery(path);
    CrudRequestSpec("GET", path, "");
  }

  /** A read carries no body: `GET /<db>/<table>/<id>` with a body is unknown. */
  lemma GetIdWithBodyIsUnknown(path: string, body: string)
    requires Segments(path).Some? && |Segments(path).value| == 3 && body != []
    ensures Params("GET", path, body) == Unknown
  {
    OneSegmentIsNoQuery(path);
    CrudRequestSpec("GET", path, body);
  }

  /** `PUT /<db>/<table>/<id>` with a body updates that id with the body, verbatim. */
  lemma PutWithIdIsUpdate(path: string, body: string)
    requires Segments(path).Some? && |Segments(path).value| == 3 && body != []
    ensures var segs := Segments(path).value;
            Params("PUT", path, body)
            == Crud([Entry(ActionKey, Sym(Update)), Entry(DatabaseKey, Str(Unescape(segs[0]))),
                     Entry(TableKey, Str(Unescape(segs[1]))), Entry(IdKey, Str(Unescape(segs[2]))),
                     Entry(BodyKey, Str(body))])
  {
    CrudRequestSpec("PUT", path, body);
  }

  /** An update needs an id: `PUT /<db>/<table>` is unknown, whatever the body. */
  lemma PutWithoutIdIsUnknown(path: string, body: string)
    requires Segments(path).Some? && |Segments(path).value| == 2
    ensures Params("PUT", path, body) == Unknown
  {
    CrudRequestSpec("PUT", path, body);
  }

  /** A create takes no id: `POST /<db>/<table>/<id>` is unknown, whatever the body. */
  lemma PostWithIdIsUnknown(path: string, body: string)
    requires Segments(path).Some? && |Segments(path).value| == 3
    ensures Params("POST", path, body) == Unknown
  {
    CrudRequestSpec("POST", path, body);
  }
}
