# ventas query API — verified model of the filter/query builder

This project models the core of a small read-only HTTP API over a SQLite
table of sales (`ventas`), written in Python with Flask (`app.py`). The core
is the `GET /ventas` list handler: how four optional filters (`cliente`,
`referencia`, `fecha_desde`, `fecha_hasta`) become a list of SQL predicates
and a parallel list of bound parameters, how `limit` and `offset` are
validated, and how the row query and the `COUNT(*)` query share one `WHERE`
clause so that `total` counts exactly the filtered records. It also models
`rows_to_dicts` (turning fetched rows into column-name mappings) and the
not-found logic of `GET /ventas/<rowid>`.

Modules, one per component:

- `Wrappers` — `Option` and `Result`.
- `Strings` — ASCII lower-casing, substring occurrence, Python's `str.join`.
- `Sql` — what the storage engine does with the generated predicates: `LIKE`
  matching (`%`, `_`, ASCII case-insensitive) and text comparison under the
  BINARY collation. These give the query a meaning; they are not program code.
- `IntParse` — `int(str)` for `limit`/`offset`, with its inverse `ShowInt`.
- `QueryBuilder` — the `Filters` and `Pred` datatypes, the declarative
  specification `Preds`/`FilterParams`, the imperative `BuildFilterLists`
  that appends as the handler does, and `WhereSql`.
- `Rows` — a Python dict as an insertion-ordered association list, `zip`,
  and `RowsToDicts`.
- `Storage` — the table (`Sale` records), the three statements the handlers
  issue, their results (`Run`), `LIMIT`/`OFFSET` paging, and a `Database`
  class whose `log` records every connection and every executed statement.
- `FilterMeaning` — what the filters mean without SQL (`Matches`), and the
  proof that the generated query selects exactly the matching records.
- `Handlers` — `ParseLimitOffset`, the response functions `ListResponse`
  and `ByIdResponse`, the handler methods `VentasList`, `QueryListing` and
  `VentasById`, and the properties of the responses.

The handler tests each filter with Python truthiness (`if cliente:`,
app.py:48), so an empty-string filter is treated as absent
(`QueryBuilder.EmptyFilterIsAbsent`, `Handlers.EmptyFilterIgnored`).

Integers are unbounded in Python but not in SQLite: a `limit`, `offset` or
row identifier outside the 64-bit range parses, and then binding it in
`cur.execute` raises `OverflowError`, which nothing catches, so the request
fails with a 500. The model states this (`Storage.Run`, `Handlers.ListStatus`,
`Handlers.ByIdResponse`).

## Model

| member | source | states |
|---|---|---|
| `QueryBuilder.BuildFilterLists` | app.py:45-59 | the `where` and `params` lists built by conditional appends equal the specification `Preds(f)` and `FilterParams(f)` |
| `QueryBuilder.Preds` | app.py:45-59 | at most four predicates, each switched on by a truthy filter |
| `QueryBuilder.FilterParams` | app.py:46-59 | there is exactly one filter parameter per predicate, and every filter parameter is text |
| `QueryBuilder.CountsAgree` | app.py:48-59 | each truthy filter adds exactly one predicate and one parameter: both lists have as many entries as there are truthy filters |
| `QueryBuilder.PredsUnfold` | app.py:48-59 | the declarative predicate list is, filter by filter in source order, the predicate of each truthy filter |
| `QueryBuilder.ParamsUnfold` | app.py:48-59 | the declarative parameter list is, filter by filter in source order, `"%" + lower(value) + "%"` for `cliente`/`referencia` and the raw value for the two dates |
| `QueryBuilder.ParamsAligned` | app.py:48-59 | predicates and parameters are parallel: the parameter at each position is the one its own predicate's filter binds, and that filter is truthy |
| `QueryBuilder.PredsInFixedOrder` | app.py:48-59 | predicates appear in the fixed order cliente, referencia, fecha_desde, fecha_hasta, each at most once |
| `QueryBuilder.PredPresentIffTruthy` | app.py:48-59 | a predicate is present if and only if its filter is truthy (absent and `""` contribute nothing) |
| `QueryBuilder.EmptyFilterIsAbsent` | app.py:48-57 | replacing an empty-string filter by an absent one changes neither the predicates nor the parameters |
| `QueryBuilder.SubstringFiltersIgnoreCase` | app.py:48-53 | substring filter values that lower-case alike give the same predicates and parameters |
| `QueryBuilder.WhereSql` | app.py:61 | `where_sql` is empty exactly when there is no predicate, and otherwise starts with `WHERE ` |
| `QueryBuilder.NoFiltersNoWhere` | app.py:61 | with no truthy filter there are no predicates, no parameters and `where_sql` is `""`; otherwise `where_sql` starts with `WHERE ` |
| `QueryBuilder.JoinedInjective` | app.py:61 | the ` AND `-joined predicate text determines the non-empty predicate list |
| `QueryBuilder.WhereSqlInjective` | app.py:61-77 | equal `where_sql` texts come from equal predicate lists, so the row and count queries that share the text constrain the same rows |
| `Sql.LikeLiteralPrefix` | app.py:49-53 | a wildcard-free `LIKE` pattern prefix matches exactly its own length of the subject, up to ASCII case |
| `Sql.LikeAll` | app.py:49-53 | the pattern `%` matches every string |
| `Sql.LikeLeadingPercent` | app.py:49-53 | a leading `%` lets the rest of the pattern match any suffix of the subject |
| `Sql.LikeContains` | app.py:49-53 | `s LIKE '%w%'` for wildcard-free `w` holds iff `w` occurs in `s` up to case |
| `Sql.CaseFoldEqLower` | app.py:49-53 | on lower-case strings, equality up to case is plain equality |
| `Sql.LikeLowerMeansContains` | app.py:49-53 | `LOWER(col) LIKE '%' + lower(v) + '%'` holds iff `lower(v)` is a substring of `lower(col)`, for wildcard-free `v` |
| `Sql.TextLeReflexive` | app.py:55-59 | text comparison is reflexive, so both date bounds are inclusive |
| `Sql.TextLeAntisymmetric` | app.py:55-59 | two texts each at most the other are equal |
| `Sql.TextLeTransitive` | app.py:55-59 | text comparison is transitive, so the date bounds describe a range |
| `IntParse.ParseInt` | app.py:40-41 | a text that converts is an optional sign followed by ASCII digits, and a text of digits alone converts to the number it denotes |
| `IntParse.DigitsValueShowNat` | app.py:40-41 | the decimal rendering of a natural number reads back as that number |
| `IntParse.ParseShowInt` | app.py:40-41 | `int(str(n)) == n` for every integer, negative ones included |
| `IntParse.ParseIntRejects` | app.py:39-43 | an empty text, a lone sign, or a character other than a digit or a leading sign makes the conversion fail |
| `Strings.Lower` | app.py:49-53 | lower-casing keeps the length, yields a lower-case string, and agrees with the input up to case |
| `Rows.Zip` | app.py:18 | `zip` pairs elements position by position and stops at the shorter input |
| `Rows.RowsToDicts` | app.py:16-18 | one mapping per row, each without a repeated key |
| `Rows.DictOf` | app.py:18 | `dict(pairs)` holds exactly the keys of the pairs, each once |
| `Rows.PutLookup` | app.py:18 | after `d[k] = v`, `k` maps to `v` and every other key is unchanged |
| `Rows.PutKeys` | app.py:18 | assigning an existing key keeps the key order; a new key is appended |
| `Rows.PutAppends` | app.py:18 | assigning a new key appends the pair |
| `Rows.DictOfLookup` | app.py:18 | `dict(pairs)` maps each key to the value last paired with it |
| `Rows.DictOfDistinctKeys` | app.py:18 | with distinct keys, `dict(pairs)` keeps every pair in order |
| `Rows.LookupAt` | app.py:18 | with distinct keys, the key at each position finds the value at that position |
| `Rows.RowsToDictsShape` | app.py:16-18 | one mapping per row in row order, keyed by the column names in order, holding the row's value under each column |
| `Storage.Selected` | app.py:72-78 | a record is selected exactly when it is in the table and satisfies every predicate with its parameter; never more records than the table holds |
| `Storage.SaleRowsShape` | app.py:72-73 | every record of a well-formed table is returned as a row as wide as the column list |
| `Storage.Page` | app.py:66 | `LIMIT ? OFFSET ?` returns at most `limit` rows (for a non-negative limit), never more than the result holds, and they are consecutive rows starting at the offset |
| `Storage.PageContents` | app.py:66 | a page holds `min(limit, n - offset)` rows when the offset is inside the result and none otherwise, the rows from the offset on |
| `Storage.PagesConcatenate` | app.py:66 | consecutive pages of `a` and `b` rows concatenate to the page of `a + b` rows |
| `Storage.Run` | app.py:72-78 | executing a statement fails when the parameters do not match its placeholders or an integer parameter lies outside 64 bits |
| `Storage.PageAsMappings` | app.py:72-81 | a page shaped by `rows_to_dicts` is one mapping per record from the offset on, keyed by the columns, holding the record's values |
| `Storage.RunPage` | app.py:62-73 | the row query bound to the filter parameters followed by `[limit, offset]` returns the page of the filtered records, and fails exactly when a parameter cannot be bound (an integer outside 64 bits) |
| `Storage.RunCount` | app.py:76-78 | the count query bound to the filter parameters returns the number of filtered records, and fails exactly when a parameter cannot be bound |
| `Storage.WithRowid` | app.py:91 | the lookup returns exactly the records with the requested row identifier |
| `Storage.Database.Execute` | app.py:72 | executing a statement logs it with its parameters and returns what the statement selects |
| `Storage.Database.Open` | app.py:70 | opening a connection is logged |
| `FilterMeaning.Matching` | app.py:72-78 | a record is among the matching records exactly when it is in the table and matches the filters |
| `FilterMeaning.AllHoldAppend` | app.py:61 | a conjunction of two predicate lists holds iff each list holds |
| `FilterMeaning.OptionalClause` | app.py:48-59 | an optional clause constrains a record only when its filter is truthy |
| `FilterMeaning.QueryMeansMatches` | app.py:48-61 | a record satisfies the generated `WHERE` with its parameters iff it contains each lower-cased substring filter and lies within the inclusive date bounds |
| `FilterMeaning.SelectedIsMatching` | app.py:72-78 | the query selects exactly the matching records, in storage order |
| `FilterMeaning.DateBoundsInclusive` | app.py:55-59 | a record dated exactly on a bound satisfies both `fecha >= ?` and `fecha <= ?` for it |
| `FilterMeaning.InvertedRangeMatchesNothing` | app.py:54-59 | when `fecha_desde` sorts after `fecha_hasta`, no record matches |
| `FilterMeaning.EqualBoundsSelectOneDate` | app.py:54-59 | with `fecha_desde` equal to `fecha_hasta`, every matching record is dated exactly that day |
| `Handlers.ParseLimitOffset` | app.py:39-43 | a rejection carries the message `limit/offset inválidos`, and with neither value present the paging is 100 and 0 |
| `Handlers.Listed` | app.py:62-85 | the 200 envelope echoes `limit` and `offset`, holds no more items than `total`, and no more than a non-negative `limit` |
| `Handlers.ListResponse` | app.py:35-85 | the list handler answers 200, 400 or 500, and a 200 echoes the parsed paging |
| `Handlers.ByIdResponse` | app.py:87-95 | the lookup answers 200, 404 or 500; 500 exactly when the identifier does not fit 64 bits; a 200 carries a record, and only when some record of the table has that identifier |
| `Handlers.VentasList` | app.py:35-85 | invalid paging answers 400 with no storage access at all; otherwise the response is `ListResponse`, storage sees one connection and the row query, and the count query too unless the row query failed on an out-of-range value |
| `Handlers.QueryListing` | app.py:45-85 | the row query is bound to the filter parameters plus `[limit, offset]`, the count query to `params[:-2]`, which is exactly the filter parameters; the envelope is the page, the echoed paging and the count, or a 500 with no count query when the paging does not fit 64 bits |
| `Handlers.VentasById` | app.py:87-95 | one query bound to the row identifier; the response is `ByIdResponse`, a 500 when the bind fails |
| `Handlers.PagingRejectedIff` | app.py:39-43 | paging is rejected, with `limit/offset inválidos`, iff a present `limit` or `offset` is not an integer; a present empty value is rejected, not defaulted |
| `Handlers.PagingAcceptsIntegers` | app.py:39-41 | the decimal text of any integer converts unchanged, negative and out-of-range ones included (the later bind failure is stated by `Handlers.ListStatus`); absent `limit` is 100 and absent `offset` is 0 |
| `Handlers.ListStatus` | app.py:39-85 | 400 with `{"error": "limit/offset inválidos"}` iff paging is invalid, whatever the filters; 500 iff it parses but a value lies outside 64 bits; otherwise 200 echoing the parsed `limit` and `offset` |
| `Handlers.TotalIgnoresPaging` | app.py:68-78 | two requests with the same filters answered 200 report the same `total`, whatever their `limit` and `offset` |
| `Handlers.TotalCountsMatches` | app.py:76-78 | `total` is the number of records matching the filters |
| `Handlers.ListingContents` | app.py:66-85 | `items` holds `min(limit, total - offset)` matching records (none past the end), item `i` being matching record `offset + i` as a column-to-value mapping |
| `Handlers.EmptyFilterIgnored` | app.py:48-59 | a request with a filter set to `""` gets the same response as one without it |
| `Handlers.SubstringFilterIgnoresCase` | app.py:48-53 | `cliente`/`referencia` values that lower-case alike get the same response |
| `Handlers.ConsecutivePages` | app.py:66-81 | the items of a page of `a` records followed by those of the next page of `b` records are the items of one page of `a + b` records |
| `Handlers.ByIdNotFound` | app.py:91-94 | 404 with `{"error": "no encontrado"}` iff the identifier fits 64 bits and no record has it; 200 for a fitting identifier otherwise |
| `Handlers.ByIdRecord` | app.py:91-95 | a found record is one flat mapping: `id` first holding the identifier, then every column of the record with that identifier, which is unique because the row identifier is the table key, with its value |

## Left out

- Flask application setup, routing, the `<int:rowid>` converter, `jsonify`, CORS and `app.run` (app.py:3-9, 20-22, 97-98), and with them the health endpoint: HTTP plumbing. Responses are a status and a structured body, not serialised JSON.
- Reading `DB_PATH` and `PORT` from the environment and opening SQLite in read-only URI mode (app.py:6, 11-14): configuration and I/O. The `Database` object stands for the connection; closing it is not modelled.
- Storage failures (missing file, I/O errors) that would surface as a 500: `Database.Execute` fails only on a parameter that cannot be bound, never for I/O reasons. The 500 response's body is Flask's error page, modelled as `ServerError` without content.
- Handlers.ListStatus: a `limit` or `offset` of more than 4300 digits is answered 500 here (it converts, then cannot be bound), while Python 3.11 and later refuse it in `int()` by default, which answers 400; the digit limit depends on the interpreter version and setting.
- `Storage.Sale` has no NULL values: `cliente`, `referencia` and `fecha` are always text. In SQLite a NULL in one of them fails every predicate on that column, so such a record would never match that filter.
- Concurrent writers changing the table between the row query and the count query: a concurrency concern; the model's table is fixed.
- `IntParse.ParseInt` accepts only an optional sign followed by ASCII digits; Python's `int()` also accepts surrounding whitespace, underscores between digits and non-ASCII digits.
- `request.args.get` returns the first of several values for a repeated parameter; `Args` is a map with one value per name.
- Lower-casing is ASCII-only on both sides: Python's `str.lower()` is Unicode-aware while SQLite's `LOWER` is ASCII-only, so the two can disagree on non-ASCII text.
- `FilterMeaning.QueryMeansMatches` requires the substring filters to hold no `%` or `_`: the handler does not escape them, so they act as `LIKE` wildcards. The `LIKE` matcher itself models them; only the equivalence with plain containment needs the assumption.
- Negative `limit` and `offset` are accepted and echoed as in the code; what the engine does with them (no bound for a negative limit, zero for a negative offset) follows SQLite's documentation and is an assumption. The paging lemmas are stated for non-negative values.
- Row order: the query has no `ORDER BY`; the model returns records in table order.
- Date filters are compared as raw text with no date validation, as in the code; a parameter that is not text never satisfies a predicate in `Storage.Holds` (the builder only binds text).
- The table is a fixed record type (`cliente`, `referencia`, `fecha`, then the other columns) rather than an arbitrary schema; `rows_to_dicts` itself is modelled for any column list.
- Statement text: the engine is modelled on the predicate list of each statement rather than by parsing its SQL text (`QueryBuilder.WhereSqlInjective` shows the `WHERE` text determines that list). That the number of `?` in each text equals `Storage.Placeholders` is not proved.
- `Handlers.ByIdRecord` requires that no column is itself named `id`; with such a column the row would carry two `id` entries and `dict(zip(...))` keeps the later one (`Rows.DictOfLookup` states that rule in general).
