/** The two request handlers over the sales table: the filtered, paginated
    list and the lookup of one record by row identifier. Each is a method
    against the database object, proved against a function that states the
    response, and the function's properties are proved as lemmas. */
module Handlers {
  import opened Wrappers
  import opened Strings
  import opened Sql
  import opened IntParse
  import opened QueryBuilder
  import opened Rows
  import opened Storage
  import opened FilterMeaning

  /** The query string: each parameter name with its value. */
  type Args = map<string, string>

  /** `request.args.get(key)`. */
  function Arg(args: Args, key: string): Option<string>
  {
    if key in args then Some(args[key]) else None
  }

  /** The filter set read from the query string. */
  function FiltersOf(args: Args): Filters
  {
    Filters(Arg(args, "cliente"), Arg(args, "referencia"), Arg(args, "fecha_desde"), Arg(args, "fecha_hasta"))
  }

  const DEFAULT_LIMIT: int := 100
  const DEFAULT_OFFSET: int := 0
  const INVALID_PAGING: string := "limit/offset inválidos"
  const NOT_FOUND: string := "no encontrado"

  /** `int(request.args.get(name, default))`: the default only when the
      parameter is absent, the conversion of its text otherwise. */
  function IntArg(arg: Option<string>, default: int): Option<int>
  {
    match arg
    case None => Some(default)
    case Some(text) => ParseInt(text)
  }

  /** The `limit` and `offset` of a request, or the 400 message when either
      is present and not an integer. */
  function ParseLimitOffset(limitArg: Option<string>, offsetArg: Option<string>): (r: Result<(int, int), string>)
    ensures r.Err? ==> r.error == INVALID_PAGING
    ensures limitArg.None? && offsetArg.None? ==> r == Ok((DEFAULT_LIMIT, DEFAULT_OFFSET))
  {
    match (IntArg(limitArg, DEFAULT_LIMIT), IntArg(offsetArg, DEFAULT_OFFSET))
    case (Some(limit), Some(offset)) => Ok((limit, offset))
    case _ => Err(INVALID_PAGING)
  }

  function Paging(args: Args): Result<(int, int), string>
  {
    ParseLimitOffset(Arg(args, "limit"), Arg(args, "offset"))
  }

  /** A response body: a JSON object, or the server's error page. */
  datatype Body =
    | ServerError
    | ErrorBody(error: string)
    | Listing(items: seq<Dict<Value>>, limit: int, offset: int, total: int)
    | Record(fields: Dict<Value>)

  datatype Response = Response(status: int, body: Body)

  /** The 200 response for valid paging: the page of filtered records as
      mappings, the paging echoed, and the number of filtered records. */
  function Listed(t: Table, f: Filters, limit: int, offset: int): (r: Response)
    ensures r.status == 200 && r.body.Listing? && r.body.limit == limit && r.body.offset == offset
    ensures |r.body.items| <= r.body.total
    ensures limit >= 0 ==> |r.body.items| <= limit
  {
    var hits := Selected(t.sales, Preds(f), FilterParams(f));
    Response(200, Listing(RowsToDicts(Columns(t), SaleRows(Page(hits, limit, offset))), limit, offset, |hits|))
  }

  /** Both paging values can be bound as SQLite integers. */
  predicate PagingFits(paging: (int, int))
  {
    FitsInt64(paging.0) && FitsInt64(paging.1)
  }

  /** The response of `GET /ventas` for a table and a query string: 400 when
      the paging does not parse, 500 when it parses but does not fit the
      engine's integers (the uncaught `OverflowError` of the row query). */
  function ListResponse(t: Table, args: Args): (r: Response)
    ensures r.status == 200 || r.status == 400 || r.status == 500
    ensures r.status == 200 ==> Paging(args).Ok? && r.body.Listing? && (r.body.limit, r.body.offset) == Paging(args).value
  {
    match Paging(args)
    case Err(e) => Response(400, ErrorBody(e))
    case Ok((limit, offset)) =>
      if PagingFits((limit, offset)) then Listed(t, FiltersOf(args), limit, offset)
      else Response(500, ServerError)
  }

  /** `GET /ventas`: validates `limit`/`offset` before touching storage, and
      answers 400 without any storage access when they are invalid. A valid
      but out-of-range value fails when the row query binds it. */
  method VentasList(db: Database, args: Args) returns (resp: Response)
    modifies db
    ensures resp == ListResponse(db.table, args)
    ensures Paging(args).Err? ==> db.log == old(db.log)
    ensures Paging(args).Ok? ==>
      db.log == old(db.log) + ListingAccesses(FiltersOf(args), Paging(args).value.0, Paging(args).value.1)
  {
    var f := FiltersOf(args);
    var paging := ParseLimitOffset(Arg(args, "limit"), Arg(args, "offset"));
    if paging.Err? {
      return Response(400, ErrorBody(paging.error));
    }
    resp := QueryListing(db, f, paging.value.0, paging.value.1);
  }

  /** The storage accesses of a valid list request: one connection, the row
      query bound to the filter parameters followed by `[limit, offset]`, and
      the count query with the same predicates bound to the filter parameters
      alone. */
  function ListingAccesses(f: Filters, limit: int, offset: int): seq<Access>
  {
    [ Opened,
      Executed(SelectPage(Preds(f)), FilterParams(f) + [Int(limit), Int(offset)]) ]
    + if PagingFits((limit, offset)) then [Executed(CountRows(Preds(f)), FilterParams(f))] else []
  }

  /** The body of the list handler after validation: builds the filter lists,
      appends `[limit, offset]` for the row query, runs the count query with
      the same `WHERE` and the parameters without their last two, and shapes
      the envelope. When the row query fails, the count query never runs. */
  method QueryListing(db: Database, f: Filters, limit: int, offset: int) returns (resp: Response)
    modifies db
    ensures resp == if PagingFits((limit, offset)) then Listed(db.table, f, limit, offset) else Response(500, ServerError)
    ensures db.log == old(db.log) + ListingAccesses(f, limit, offset)
  {
    var where, params := BuildFilterLists(f);
    params := params + [Int(limit), Int(offset)];
    var filterParams := params[..|params| - 2];
    assert filterParams == FilterParams(f);
    assert forall v :: v in filterParams ==> Bindable(v);
    RunPage(db.table, where, filterParams, limit, offset);
    RunCount(db.table, where, filterParams);
    db.Open();
    var rows := db.Execute(SelectPage(where), params);
    if rows.None? {
      return Response(500, ServerError);
    }
    var count := db.Execute(CountRows(where), filterParams);
    var total := count.value.rows[0][0].i;
    resp := Response(200, Listing(RowsToDicts(rows.value.cols, rows.value.rows), limit, offset, total));
  }

  /** The response of `GET /ventas/<rowid>`: 500 when the identifier does
      not fit the engine's integers, 404 when no record has it, otherwise the
      first record with it. */
  function ByIdResponse(t: Table, rowid: int): (r: Response)
    ensures r.status == 200 || r.status == 404 || r.status == 500
    ensures r.status == 500 <==> !FitsInt64(rowid)
    ensures r.status == 200 ==> r.body.Record? && exists s :: s in t.sales && s.rowid == rowid
  {
    var hits := WithRowid(t.sales, rowid);
    if !FitsInt64(rowid) then Response(500, ServerError)
    else if hits == [] then Response(404, ErrorBody(NOT_FOUND))
    else
      assert hits[0] in hits;
      Response(200, Record(DictOf(Zip(["id"] + Columns(t), [Int(rowid)] + RowValues(hits[0])))))
  }

  /** `GET /ventas/<rowid>`: one query binding the identifier, then the first
      row as a mapping, or the 404 body when there is none. */
  method VentasById(db: Database, rowid: int) returns (resp: Response)
    modifies db
    ensures resp == ByIdResponse(db.table, rowid)
    ensures db.log == old(db.log) + [Opened, Executed(SelectByRowid, [Int(rowid)])]
  {
    db.Open();
    var res := db.Execute(SelectByRowid, [Int(rowid)]);
    if res.None? {
      assert !Bindable([Int(rowid)][0]);
      return Response(500, ServerError);
    }
    var found := res.value;
    if |found.rows| == 0 {
      return Response(404, ErrorBody(NOT_FOUND));
    }
    resp := Response(200, Record(RowsToDicts(found.cols, [found.rows[0]])[0]));
  }

  const FILTER_KEYS: seq<string> := ["cliente", "referencia", "fecha_desde", "fecha_hasta"]

  /** The query-string text of an optional integer. */
  function ShowArg(n: Option<int>): Option<string>
  {
    match n
    case None => None
    case Some(k) => Some(ShowInt(k))
  }

  /** `limit` and `offset` are rejected exactly when one of them is present
      and not an integer; a present but empty value is rejected too, never
      replaced by the default. */
  lemma PagingRejectedIff(limitArg: Option<string>, offsetArg: Option<string>)
    ensures ParseLimitOffset(limitArg, offsetArg).Err?
      <==> (limitArg.Some? && ParseInt(limitArg.value).None?) || (offsetArg.Some? && ParseInt(offsetArg.value).None?)
    ensures ParseLimitOffset(limitArg, offsetArg).Err? ==> ParseLimitOffset(limitArg, offsetArg).error == INVALID_PAGING
    ensures ParseLimitOffset(Some(""), offsetArg).Err? && ParseLimitOffset(limitArg, Some("")).Err?
  {
  }

  /** Every integer, negative ones included, is accepted unchanged; an absent
      `limit` is 100 and an absent `offset` is 0. */
  lemma PagingAcceptsIntegers(limit: Option<int>, offset: Option<int>)
    ensures ParseLimitOffset(ShowArg(limit), ShowArg(offset))
      == Ok((if limit.Some? then limit.value else 100, if offset.Some? then offset.value else 0))
  {
    if limit.Some? {
      ParseShowInt(limit.value);
    }
    if offset.Some? {
      ParseShowInt(offset.value);
    }
  }

  /** A request is answered 400 with `{"error": "limit/offset inválidos"}`
      exactly when its paging is invalid, whatever the filters; 500 when the
      paging parses but a value lies outside 64 bits; otherwise 200 with the
      parsed `limit` and `offset` echoed in the envelope. */
  lemma ListStatus(t: Table, args: Args)
    ensures ListResponse(t, args).status == 400 <==> Paging(args).Err?
    ensures Paging(args).Err? ==> ListResponse(t, args).body == ErrorBody("limit/offset inválidos")
    ensures ListResponse(t, args).status == 500 <==> Paging(args).Ok? && !PagingFits(Paging(args).value)
    ensures Paging(args).Ok? && PagingFits(Paging(args).value) ==>
      var r := ListResponse(t, args);
      && r == Listed(t, FiltersOf(args), Paging(args).value.0, Paging(args).value.1)
      && r.status == 200 && r.body.Listing? && (r.body.limit, r.body.offset) == Paging(args).value
  {
  }

  /** `total` depends on the filters only: two requests with the same filters
      and any valid paging report the same total. */
  lemma TotalIgnoresPaging(t: Table, args1: Args, args2: Args)
    requires forall k :: k in FILTER_KEYS ==> Arg(args1, k) == Arg(args2, k)
    requires ListResponse(t, args1).status == 200 && ListResponse(t, args2).status == 200
    ensures ListResponse(t, args1).body.total == ListResponse(t, args2).body.total
  {
    assert FiltersOf(args1) == FiltersOf(args2) by {
      assert FILTER_KEYS[0] == "cliente" && FILTER_KEYS[1] == "referencia";
      assert FILTER_KEYS[2] == "fecha_desde" && FILTER_KEYS[3] == "fecha_hasta";
    }
  }

  /** `total` is the number of records matching the filters. */
  lemma TotalCountsMatches(t: Table, args: Args)
    requires ListResponse(t, args).status == 200 && Plain(FiltersOf(args))
    ensures ListResponse(t, args).body.total == |Matching(t.sales, FiltersOf(args))|
  {
    SelectedIsMatching(t.sales, FiltersOf(args));
  }

  /** With a non-negative `limit` and `offset`, `items` holds `min(limit,
      total - offset)` records when the offset is below the total and none
      otherwise; item `i` is matching record `offset + i` as a mapping from
      each column name to its value. */
  lemma ListingContents(t: Table, f: Filters, limit: int, offset: int)
    requires WellFormed(t) && Plain(f) && limit >= 0 && offset >= 0
    ensures
      var m := Matching(t.sales, f);
      var items := Listed(t, f, limit, offset).body.items;
      && |items| == (if offset >= |m| then 0 else if limit < |m| - offset then limit else |m| - offset)
      && forall i :: 0 <= i < |items| ==>
           Keys(items[i]) == Columns(t)
           && forall j :: 0 <= j < |Columns(t)| ==> Lookup(items[i], Columns(t)[j]) == Some(RowValues(m[offset + i])[j])
  {
    SelectedIsMatching(t.sales, f);
    PageAsMappings(t, Matching(t.sales, f), limit, offset);
  }

  /** An empty-string filter is treated as absent, because the handler tests
      each filter for truthiness. */
  lemma EmptyFilterIgnored(t: Table, args: Args, key: string)
    requires key in FILTER_KEYS
    ensures ListResponse(t, args[key := ""]) == ListResponse(t, args - {key})
  {
    var a1, a2 := args[key := ""], args - {key};
    assert Arg(a1, "limit") == Arg(a2, "limit") && Arg(a1, "offset") == Arg(a2, "offset");
    EmptyFilterIsAbsent(FiltersOf(a1), FiltersOf(a2));
  }

  /** The substring filters ignore case: `cliente=ACME` and `cliente=acme`
      give the same response. */
  lemma SubstringFilterIgnoresCase(t: Table, args: Args, key: string, v1: string, v2: string)
    requires key == "cliente" || key == "referencia"
    requires Lower(v1) == Lower(v2)
    ensures ListResponse(t, args[key := v1]) == ListResponse(t, args[key := v2])
  {
    var a1, a2 := args[key := v1], args[key := v2];
    assert Arg(a1, "limit") == Arg(a2, "limit") && Arg(a1, "offset") == Arg(a2, "offset");
    SubstringFiltersIgnoreCase(FiltersOf(a1), FiltersOf(a2));
  }

  /** For an identifier that fits the engine's integers, the lookup answers
      404 with `{"error": "no encontrado"}` exactly when no record has it, and
      200 otherwise. */
  lemma ByIdNotFound(t: Table, rowid: int)
    ensures ByIdResponse(t, rowid).status == 404
      <==> FitsInt64(rowid) && forall s :: s in t.sales ==> s.rowid != rowid
    ensures ByIdResponse(t, rowid).status == 404 ==> ByIdResponse(t, rowid).body == ErrorBody("no encontrado")
    ensures FitsInt64(rowid) && ByIdResponse(t, rowid).status != 404 ==> ByIdResponse(t, rowid).status == 200
  {
    var hits := WithRowid(t.sales, rowid);
    if hits != [] {
      assert hits[0] in hits;
    }
  }

  /** A found record is one flat mapping: `id` first, holding the identifier,
      then every column of the one record with that identifier, with its value. */
  lemma ByIdRecord(t: Table, rowid: int, s: Sale)
    requires WellFormed(t) && "id" !in Columns(t)
    requires s in t.sales && s.rowid == rowid
    ensures
      var r := ByIdResponse(t, rowid);
      && r.status == 200 && r.body.Record?
      && Keys(r.body.fields) == ["id"] + Columns(t)
      && Lookup(r.body.fields, "id") == Some(Int(rowid))
      && forall j :: 0 <= j < |Columns(t)| ==> Lookup(r.body.fields, Columns(t)[j]) == Some(RowValues(s)[j])
  {
    var hits := WithRowid(t.sales, rowid);
    assert s in hits;
    var found := hits[0];
    assert found in hits;
    assert found == s by {
      var a :| 0 <= a < |t.sales| && t.sales[a] == found;
      var b :| 0 <= b < |t.sales| && t.sales[b] == s;
      assert a == b;
    }
    var cols := ["id"] + Columns(t);
    var vals := [Int(rowid)] + RowValues(found);
    var pairs := Zip(cols, vals);
    assert Keys(pairs) == cols;
    DictOfDistinctKeys(pairs);
    LookupAt(pairs, 0);
    forall j | 0 <= j < |Columns(t)| ensures Lookup(pairs, Columns(t)[j]) == Some(RowValues(found)[j]) {
      LookupAt(pairs, j + 1);
    }
  }

  /** Paging through the results with consecutive requests loses and repeats
      nothing: the items of a page of `a` records followed by those of the next
      page are the items of one page of `a + b` records. */
  lemma ConsecutivePages(t: Table, f: Filters, a: nat, b: nat, offset: nat)
    ensures Listed(t, f, a, offset).body.items + Listed(t, f, b, offset + a).body.items
      == Listed(t, f, a + b, offset).body.items
  {
    var hits := Selected(t.sales, Preds(f), FilterParams(f));
    var p1, p2 := Page(hits, a, offset), Page(hits, b, offset + a);
    PagesConcatenate(hits, a, b, offset);
    SaleRowsAppend(p1, p2);
    RowsToDictsAppend(Columns(t), SaleRows(p1), SaleRows(p2));
  }
}
