# restful_geof request router, in Dafny

This project models the request router of restful_geof, `RestfulGeof::Routes`. The router takes an HTTP method, a URL path and a request body and turns them into an action descriptor, in one of three shapes:

- a **query**: database, table and the condition options (`is`, `in`, `matches`, `contains`, `closest`, `maround` and an optional `limit`);
- a **CRUD** descriptor: `read`, `create`, `delete` or `update`, with the database, the table, an optional id and an optional body;
- `{action: :unknown}`.

The query grammar is tried first (`query_request_params`), then the CRUD grammar (`crud_request_params`); when neither applies the result is `unknown`.

Modules, one per file:

- `Wrappers` (`wrappers.dfy`): `Option`.
- `Text` (`text.dfy`):
  - `String#split` on a character, both as a full split and the Ruby form that drops trailing empty pieces;
  - joining;
  - decimal digits and their value (`to_i`).
- `PercentEncoding` (`percent_encoding.dfy`): `URI.unescape`, where every `%` followed by two hexadecimal digits becomes that byte. It also defines a reference encoder, `EscapeAll`, that Unescape inverts.
- `PathSegments` (`path_segments.dfy`): the `/<seg>/<seg>/…` shape shared by both path patterns, where every segment is non-empty and holds no `/`.
- `QueryGrammar` (`query_grammar.dfy`): the query path pattern, read segment by segment. Every `[^/]+` in the pattern is followed by `/` or by the end of the path, so only whole segments can be captured. The module has three readings:
  - `MatchTail`: the regular-expression engine's backtracking search, with the alternatives in order, a further condition tried before the optional limit, and then the end of the path;
  - `Scan`: Ruby's `String#scan` over the captured conditions;
  - `Conds` and `InQueryLanguage`: the language of the pattern, stated directly.
- `Conditions` (`conditions.dfy`):
  - the condition options;
  - the decoding of one scanned token, with the source's chain of tests made on the unescaped parts;
  - the order-dependent recording of conditions (`Apply`, `Fold`).
- `Routes` (`routes.dfy`):
  - `params` and the query request, as a method with the source's `each` loop proved against `Fold`;
  - `crud_action`, `without_empties`, `params_if_valid` and the CRUD request;
  - corollaries for the request shapes the router distinguishes.
- `RoundTrip` (`round_trip.dfy`): a client that writes a database, a table, a list of conditions and a limit into a path, escaping every byte of every value, gets exactly that query back.
- `Scenarios` (`scenarios.dfy`): worked requests. One is a lookup with a full-text condition and a limit. The other is a `/closest/maround/a/b` path, which the pattern and the scan read differently.

The method, path and body are parameters. The CRUD descriptor is a sequence of entries in the order the source builds its hash, so comparing key lists is comparing sequences. The `closest` and `maround` hashes are `Option<LonLat>` and `Option<Around>`. The source always sets all of their keys together, and `None` is the empty hash.

Two behaviours of the code are easy to misread, and the model follows the code in both:

- One might expect a malformed condition segment to make the query parse return `unknown` from inside the loop. In the code, such a path fails the whole-path pattern, so `query_request_params` returns `nil` and the request falls through to the CRUD grammar.
  - With four or more segments, the CRUD grammar rejects it too, so the result is still `unknown`, by the fallback chain.
  - With exactly three segments (`/<db>/<table>/junk`), the CRUD grammar takes the third segment as an id: a GET with an empty body reads the id `junk` (`Routes.OneSegmentIsNoQuery`, `Routes.GetIdIsRead`).
  - The early `return {action: :unknown}` inside the loop is modelled, and it is proved unreachable (`Routes.ScanIsRead`).
- One might expect a single `closest` anchor per query. The code accepts any number of them, and a later one overwrites an earlier one (`Conditions.FoldLastWins`).

## Model

| member | source | states |
|---|---|---|
| Routes.Params | lib/restful_geof/routes.rb:14-16 | A query descriptor comes only from a GET. A CRUD descriptor comes only from GET, POST, DELETE or PUT. |
| Routes.ParamsFallback | lib/restful_geof/routes.rb:14-16 | A GET whose path is `/<db>/<table>` plus a word of the query language is always a query. Every other request gives the CRUD descriptor when the CRUD grammar accepts it, and otherwise exactly `unknown`; no other shape is returned. |
| Routes.QueryRequest | lib/restful_geof/routes.rb:20-65 | `query_request_params` answers exactly the GETs whose path is `/<db>/<table>` plus a word of the query language, and then always with a query, never the loop's `unknown`; `Routes.QueryRequestSpec` gives the names and the limit, `RoundTrip.QueryRoundTrip` the conditions. |
| Routes.QueryRequestSpec | lib/restful_geof/routes.rb:20-63 | The query request succeeds exactly for GET on a query path, and then always yields a query, never the loop's `unknown`. Database and table are the unescaped first two segments. When the limit is absent, the rest of the path is whole condition groups; when it is set, the path ends in `limit/<digits>` and the limit is the digits' decimal value. |
| Routes.QueryRequestParams | lib/restful_geof/routes.rb:20-65 | The imperative query request (match, then limit, then scan, then loop) returns what the query request function defines. |
| Routes.ReadConditions | lib/restful_geof/routes.rb:39-56 | The `each` loop over the scanned tokens returns the fold of the tokens over the initial options. It returns None, the early return, as soon as a token passes none of the tests. |
| Routes.ReadToken | lib/restful_geof/routes.rb:40-55 | One pass of the loop body, with the tests in source order on the unescaped parts, records the decoded condition, or fails when the token decodes to nothing. |
| Routes.ScanIsRead | lib/restful_geof/routes.rb:39-55 | Reading the tokens of any scan never fails, so the `return {action: :unknown}` branch is unreachable. |
| Routes.LimitOption | lib/restful_geof/routes.rb:37 | A limit is set exactly when digits were captured and they unescape to a non-empty string. |
| Routes.LimitOfDigits | lib/restful_geof/routes.rb:37 | Captured digits become the limit with their decimal value. |
| Routes.CrudActionOf | lib/restful_geof/routes.rb:87-94 | `crud_action` is defined exactly for GET, POST, DELETE and PUT. Every action but POST's takes an id, and exactly POST's and PUT's take a body. |
| Routes.WithoutEmpties | lib/restful_geof/routes.rb:96-98 | `without_empties` never lengthens the hash and leaves no empty value; `Routes.WithoutEmptiesKeeps` shows it keeps every other entry. |
| Routes.RequiredKeys | lib/restful_geof/routes.rb:100-106 | `keys_required_by_action` is action, database and table, then the id where the action needs one, then the body where it needs one. |
| Routes.ParamsIfValid | lib/restful_geof/routes.rb:100-108 | `params_if_valid` returns the hash unchanged exactly when its keys are, in order, action, database, table, then the id and the body the action needs; otherwise `nil`. |
| Routes.CrudRequest | lib/restful_geof/routes.rb:67-85 | An accepted CRUD request comes from one of the four methods, has exactly the action's required keys in order, and holds no empty value; `Routes.CrudRequestSpec` gives the converse. |
| Routes.CrudRequestSpec | lib/restful_geof/routes.rb:67-107 | The CRUD grammar accepts a request exactly when all of these hold: the method is one of the four; the path is `/<db>/<table>` with at most one more segment; an id is present exactly when the action needs one (read, delete, update); and the body is non-empty exactly when the action needs one (create, update). The descriptor is then the action, the unescaped names, the unescaped id and the verbatim body. |
| Routes.WithoutEmptiesKeeps | lib/restful_geof/routes.rb:96-98 | `without_empties` keeps exactly the entries whose value is not empty, and changes nothing when none is empty. |
| Routes.WithoutEmptiesFive | lib/restful_geof/routes.rb:76-82 | Of the five entries built, only the id and the body can be dropped, and the order is kept. |
| Routes.GetTableIsQuery | lib/restful_geof/routes.rb:14-35 | `GET /<db>/<table>` is a query with no condition and no limit, never a read. |
| Routes.OneSegmentIsNoQuery | lib/restful_geof/routes.rb:26-33 | A single segment after the table is never a query path. |
| Routes.GetIdIsRead | lib/restful_geof/routes.rb:67-107 | `GET /<db>/<table>/<id>` with an empty body reads that id. |
| Routes.GetIdWithBodyIsUnknown | lib/restful_geof/routes.rb:100-107 | A GET of an id with a non-empty body is `unknown`. |
| Routes.PutWithIdIsUpdate | lib/restful_geof/routes.rb:67-107 | `PUT /<db>/<table>/<id>` with a body updates that id with the body. |
| Routes.PutWithoutIdIsUnknown | lib/restful_geof/routes.rb:100-107 | A PUT without an id is `unknown`, whatever the body. |
| Routes.PostWithIdIsUnknown | lib/restful_geof/routes.rb:100-107 | A POST with an id is `unknown`, whatever the body. |
| QueryGrammar.MatchTail | lib/restful_geof/routes.rb:21-33 | Every match found is sound: whole condition groups, then either the end of the path or exactly `limit/<digits>`, with the digits captured. |
| QueryGrammar.MatchTailComplete | lib/restful_geof/routes.rb:21-33 | The backtracking search finds a match for every sequence of condition groups that is followed by nothing or by `limit/<digits>`. |
| QueryGrammar.MatchTailDecides | lib/restful_geof/routes.rb:21-33 | The search accepts exactly the language of the pattern. |
| QueryGrammar.Scan | lib/restful_geof/routes.rb:39 | Every scanned token is one whole condition group. |
| QueryGrammar.ScanAligned | lib/restful_geof/routes.rb:21-39 | On condition groups in which no `closest` segment is directly followed by a `maround` segment, the scan cuts exactly the groups and skips nothing. |
| QueryGrammar.ScanMisreadsClosestMaround | lib/restful_geof/routes.rb:21-39 | `closest/maround/a/b` is in the language as one `maround` group, but the scan yields only `closest/maround/a`. |
| Conditions.Initial | lib/restful_geof/routes.rb:35-37 | The initial options hold the limit and nothing under any key. |
| Conditions.Apply | lib/restful_geof/routes.rb:43-52 | Recording a condition leaves the limit unchanged. |
| Conditions.ApplySpec | lib/restful_geof/routes.rb:43-52 | After one condition, its key (operator and field, or `closest`, or `maround`) holds its value, and every other key holds what it held before. |
| Conditions.Decode | lib/restful_geof/routes.rb:40-55 | A token decodes to nothing exactly when its decoded second part is none of `is`, `matches`, `contains`, `in` and `maround` and its decoded first part is not `closest`. The field of an `is`, `matches`, `contains` or `in` condition is the whole first segment, decoded. |
| Conditions.DecodeValueLocal | lib/restful_geof/routes.rb:40-43 | The value segment of an `is`, `matches` or `contains` token takes no part in the tests: replacing it changes only the decoded value, so an escaped `/` or an operator name inside it stays in that one field. |
| Conditions.DecodeGroup | lib/restful_geof/routes.rb:42-55 | Every whole condition group passes one of the tests of the chain. |
| Conditions.Fold | lib/restful_geof/routes.rb:37-56 | Reading the tokens never changes the limit. |
| Conditions.FoldPrefix | lib/restful_geof/routes.rb:39-56 | When all tokens are read, every prefix of them is read too. |
| Conditions.FoldFails | lib/restful_geof/routes.rb:39-55 | Reading fails exactly when some token passes none of the tests. |
| Conditions.FoldLastWins | lib/restful_geof/routes.rb:43-52 | The last token stored under a key decides that key's value. |
| Conditions.FoldUntouched | lib/restful_geof/routes.rb:43-52 | A key no token is stored under keeps its initial value. |
| Conditions.FoldDecoded | lib/restful_geof/routes.rb:39-52 | Tokens that decode to a list of conditions are read as those conditions recorded in order. |
| PercentEncoding.Unescape | lib/restful_geof/routes.rb:41 | Decoding never lengthens a string, keeps a non-empty string non-empty, and leaves a string without `%` unchanged. |
| PercentEncoding.EscapeAll | lib/restful_geof/routes.rb:41 | The reference encoder writes three characters per byte, each `%` or a hexadecimal digit. |
| PercentEncoding.UnescapeEscapeAll | lib/restful_geof/routes.rb:41 | Decoding undoes the encoding of every byte string. |
| PercentEncoding.EscapedHasNoSeparators | lib/restful_geof/routes.rb:40-45 | An encoded value holds no `/` and no `,`, so it can create no extra segment or list item. |
| Text.SplitAll | lib/restful_geof/routes.rb:26-33 | Splitting gives at least one piece, and no piece holds the separator. |
| Text.JoinSplitAll | lib/restful_geof/routes.rb:26-33 | Joining the pieces of a split gives the string back. |
| Text.SplitAllJoin | lib/restful_geof/routes.rb:68-74 | Splitting a join of separator-free pieces gives the pieces back. |
| Text.RubySplit | lib/restful_geof/routes.rb:45 | Ruby's `split(",")` gives separator-free pieces with a non-empty last one, and is the full split with only empty trailing pieces removed; `Text.RubySplitJoin` is its inverse on lists with a non-empty last item. |
| Text.DecimalValue | lib/restful_geof/routes.rb:37 | `to_i` of `n` digits is below 10^n; `Text.DecimalRoundTrip` shows it reads back any written numeral. |
| Text.DropTrailingEmpty | lib/restful_geof/routes.rb:45 | Ruby's `split` keeps a prefix of the pieces and drops only empty trailing ones. |
| Text.RubySplitJoin | lib/restful_geof/routes.rb:45 | Ruby's `split` of a comma-join whose last item is non-empty returns the items. |
| Text.DecimalString | lib/restful_geof/routes.rb:31 | The decimal numeral of a number is all digits. |
| Text.DecimalRoundTrip | lib/restful_geof/routes.rb:37 | `to_i` of a decimal numeral gives the number back. |
| PathSegments.Segments | lib/restful_geof/routes.rb:26-33 | A recognised path is `/` followed by its non-empty, slash-free segments joined by `/`. |
| PathSegments.SegmentsOfJoin | lib/restful_geof/routes.rb:68-74 | Every such path is recognised with exactly its segments. |
| RoundTrip.DecodeSegs | lib/restful_geof/routes.rb:40-52 | A condition written with every value byte escaped is decoded back as itself. |
| RoundTrip.ListSegment | lib/restful_geof/routes.rb:45 | A comma-joined list of escaped items splits back into the items. |
| RoundTrip.MatchAllSegs | lib/restful_geof/routes.rb:21-33 | The search takes written conditions as the conditions and a written limit as the limit. |
| RoundTrip.ScanAllSegs | lib/restful_geof/routes.rb:39 | The scan reads written conditions back one token each. |
| RoundTrip.QueryRoundTrip | lib/restful_geof/routes.rb:14-63 | A GET of a written path gives the written database and table, and the options obtained by recording the written conditions in order, with the written limit. |
| Scenarios.LookupWithLimit | lib/restful_geof/routes.rb:20-63 | `/<db>/<table>/<f1>/is/<v1>/<f2>/matches/<v2>/limit/<n>` gives `is {f1: v1}` and `matches {f2: unescaped v2}`, with the limit of `n`. |
| Scenarios.LookupExample | lib/restful_geof/routes.rb:14-63 | `/mydb/mytable/groupid/is/2/name/matches/mr%20ed/limit/3` gives `is {groupid: "2"}`, `matches {name: "mr ed"}` and limit 3. |
| Scenarios.ClosestMaroundMisread | lib/restful_geof/routes.rb:21-48 | `/<db>/<table>/closest/maround/<a>/<b>` gives a `closest` point with longitude `maround` and latitude `a`, and no `maround`; `b` is dropped. |

## Left out

- `Routes#initialize` (lib/restful_geof/routes.rb:8-12) reads the request object and its body stream. This is I/O; the method, path and body are parameters of the model instead.
- The `to_f` conversion of the `maround` radius, longitude and latitude (lib/restful_geof/routes.rb:50-52) is floating point. The model keeps the decoded strings.
- `^` and `$` in Ruby are line anchors. The model reads them as the start and end of the whole path, so a path with a raw newline is outside it.
- `is_in?` comes from `patches/ruby/object`, which is not part of this model. It is taken as list membership.
- Strings are byte strings. A decoded `%XX` is the character with that code; UTF-8 decoding of the result is not modelled.
- RoundTrip.QueryRoundTrip covers only conditions a client can write, and promises nothing for the others:
  - An escaped `closest` longitude spelled like an operator, or an escaped `maround` radius spelled `closest`, is read as a different kind of condition, because the chain of tests compares unescaped parts.
  - An `in` list that is empty or ends in an empty item does not read back, because Ruby's `split(",")` drops trailing empty pieces (`a,` reads back as `["a"]`).
  - Names and values must be non-empty byte strings, because every segment of a matched path is non-empty.
- The specification files (`spec/restful_geof/model_spec.rb`, `spec/pozi_api/routes_spec.rb`, `spec/integration/updating_spec.rb`) test other classes or live services and are not part of this model.
