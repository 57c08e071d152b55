/** The storage collaborator: the `ventas` table, the three statements the
    handlers issue, what each returns, and a database object that records
    every access. The table is read-only; nothing here changes it. */
module Storage {
  import opened Wrappers
  import opened Strings
  import opened Sql
  import opened QueryBuilder
  import Rows

  /** One sale record: its row identifier, the three columns the filters
      read, and the values of the remaining columns. */
  datatype Sale = Sale(rowid: int, cliente: string, referencia: string, fecha: string, extra: seq<Value>)

  /** The table: the names of the columns after the three known ones, and
      the records in storage order. */
  datatype Table = Table(extraCols: seq<string>, sales: seq<Sale>)

  /** Column names as `SELECT *` reports them. */
  function Columns(t: Table): seq<string>
  {
    ["cliente", "referencia", "fecha"] + t.extraCols
  }

  /** A record as `SELECT *` returns it. */
  function RowValues(s: Sale): seq<Value>
  {
    [Text(s.cliente), Text(s.referencia), Text(s.fecha)] + s.extra
  }

  function SaleRows(sales: seq<Sale>): seq<seq<Value>>
  {
    seq(|sales|, i requires 0 <= i < |sales| => RowValues(sales[i]))
  }

  /** Every record of a well-formed table gives a row as wide as the column list. */
  lemma SaleRowsShape(t: Table, xs: seq<Sale>)
    requires WellFormed(t) && forall s :: s in xs ==> s in t.sales
    ensures |SaleRows(xs)| == |xs|
    ensures forall i :: 0 <= i < |xs| ==> SaleRows(xs)[i] == RowValues(xs[i]) && |SaleRows(xs)[i]| == |Columns(t)|
  {
    forall i | 0 <= i < |xs| ensures |RowValues(xs[i])| == |Columns(t)| {
      assert xs[i] in t.sales;
    }
  }

  lemma SaleRowsAppend(xs: seq<Sale>, ys: seq<Sale>)
    ensures SaleRows(xs + ys) == SaleRows(xs) + SaleRows(ys)
  {
    assert |SaleRows(xs + ys)| == |SaleRows(xs) + SaleRows(ys)|;
    forall i | 0 <= i < |xs + ys| ensures SaleRows(xs + ys)[i] == (SaleRows(xs) + SaleRows(ys))[i] {
      if i >= |xs| {
        assert (xs + ys)[i] == ys[i - |xs|];
      }
    }
  }

  /** Column names are distinct, every record has a value per column, and
      the row identifier is the table's key: a 64-bit integer, as SQLite
      stores it, that no two records share. */
  predicate WellFormed(t: Table)
  {
    && Rows.Distinct(Columns(t))
    && (forall s :: s in t.sales ==> |s.extra| == |t.extraCols| && FitsInt64(s.rowid))
    && forall i, j :: 0 <= i < j < |t.sales| ==> t.sales[i].rowid != t.sales[j].rowid
  }

  /** The range of SQLite's INTEGER: a Python integer outside it cannot be
      bound to a placeholder. */
  const INT64_MIN: int := -0x8000_0000_0000_0000
  const INT64_MAX: int := 0x7FFF_FFFF_FFFF_FFFF

  predicate FitsInt64(i: int)
  {
    INT64_MIN <= i <= INT64_MAX
  }

  /** A parameter the engine can bind: any text, or an integer in range. */
  predicate Bindable(v: Value)
  {
    v.Int? ==> FitsInt64(v.i)
  }

  function ColumnText(s: Sale, c: Column): string
  {
    match c
    case Cliente => s.cliente
    case Referencia => s.referencia
  }

  /** Predicate `p` with its placeholder bound to `v`, evaluated on a record. */
  predicate Holds(p: Pred, v: Value, s: Sale)
  {
    v.Text? &&
    match p
    case LikeLower(c) => Like(Lower(ColumnText(s, c)), v.s)
    case GeFecha => TextLe(v.s, s.fecha)
    case LeFecha => TextLe(s.fecha, v.s)
  }

  /** The conjunction of the `WHERE` predicates, with parameters by position. */
  predicate AllHold(where: seq<Pred>, params: seq<Value>, s: Sale)
    requires |where| == |params|
  {
    forall i :: 0 <= i < |where| ==> Holds(where[i], params[i], s)
  }

  /** The records satisfying the `WHERE` clause, in storage order. */
  function Selected(sales: seq<Sale>, where: seq<Pred>, params: seq<Value>): (r: seq<Sale>)
    requires |where| == |params|
    ensures |r| <= |sales|
    ensures forall s :: s in r <==> s in sales && AllHold(where, params, s)
  {
    if sales == [] then []
    else (if AllHold(where, params, sales[0]) then [sales[0]] else []) + Selected(sales[1..], where, params)
  }

  /** `LIMIT limit OFFSET offset` over an ordered result. A negative limit
      means no bound and a negative offset counts as zero. */
  function Page<T>(xs: seq<T>, limit: int, offset: int): (r: seq<T>)
    ensures |r| <= |xs|
    ensures limit >= 0 ==> |r| <= limit
    ensures offset >= 0 ==> forall i :: 0 <= i < |r| ==> offset + i < |xs| && r[i] == xs[offset + i]
    ensures offset < 0 ==> forall i :: 0 <= i < |r| ==> i < |xs| && r[i] == xs[i]
  {
    var start := if offset < 0 then 0 else if offset > |xs| then |xs| else offset;
    var end := if limit < 0 || limit > |xs| - start then |xs| else start + limit;
    xs[start..end]
  }

  /** A page holds `min(limit, n - offset)` rows when the offset is inside
      the result and none otherwise, and they are the rows from the offset on. */
  lemma PageContents<T>(xs: seq<T>, limit: int, offset: int)
    requires limit >= 0 && offset >= 0
    ensures |Page(xs, limit, offset)| ==
      if offset >= |xs| then 0 else if limit < |xs| - offset then limit else |xs| - offset
    ensures forall i :: 0 <= i < |Page(xs, limit, offset)| ==> Page(xs, limit, offset)[i] == xs[offset + i]
  {
  }

  /** A page of records shaped as mappings: one per record from the offset
      on, each keyed by the column names and holding the record's values. */
  lemma PageAsMappings(t: Table, m: seq<Sale>, limit: int, offset: int)
    requires WellFormed(t) && forall s :: s in m ==> s in t.sales
    requires limit >= 0 && offset >= 0
    ensures
      var items := Rows.RowsToDicts(Columns(t), SaleRows(Page(m, limit, offset)));
      && |items| == (if offset >= |m| then 0 else if limit < |m| - offset then limit else |m| - offset)
      && forall i :: 0 <= i < |items| ==>
           Rows.Keys(items[i]) == Columns(t)
           && forall j :: 0 <= j < |Columns(t)| ==> Rows.Lookup(items[i], Columns(t)[j]) == Some(RowValues(m[offset + i])[j])
  {
    var page := Page(m, limit, offset);
    PageContents(m, limit, offset);
    SaleRowsShape(t, page);
    Rows.RowsToDictsShape(Columns(t), SaleRows(page));
  }

  /** Consecutive pages tile the result: the page after a page of `a` rows,
      followed by it, is the page of `a + b` rows. */
  lemma PagesConcatenate<T>(xs: seq<T>, a: nat, b: nat, offset: nat)
    ensures Page(xs, a, offset) + Page(xs, b, offset + a) == Page(xs, a + b, offset)
  {
    var p1, p2, p := Page(xs, a, offset), Page(xs, b, offset + a), Page(xs, a + b, offset);
    PageContents(xs, a, offset);
    PageContents(xs, b, offset + a);
    PageContents(xs, a + b, offset);
    assert |p1 + p2| == |p|;
    forall i | 0 <= i < |p| ensures (p1 + p2)[i] == p[i] {
      if i >= |p1| {
        assert (p1 + p2)[i] == p2[i - |p1|];
      }
    }
  }

  /** The statements the handlers issue. The first two carry the predicate
      list their `WHERE` text is rendered from (`WhereSqlInjective` shows the
      text and the list determine each other). */
  datatype Stmt =
    | SelectPage(where: seq<Pred>)
    | CountRows(where: seq<Pred>)
    | SelectByRowid

  /** How many parameters a statement binds: one per `?` in its text. */
  function Placeholders(stmt: Stmt): nat
  {
    match stmt
    case SelectPage(w) => |w| + 2
    case CountRows(w) => |w|
    case SelectByRowid => 1
  }

  /** Column names and rows of an executed statement, as the cursor gives them. */
  datatype ResultSet = ResultSet(cols: seq<string>, rows: seq<seq<Value>>)

  /** The records whose row identifier is `rowid`. */
  function WithRowid(sales: seq<Sale>, rowid: int): (r: seq<Sale>)
    ensures forall s :: s in r <==> s in sales && s.rowid == rowid
  {
    if sales == [] then []
    else (if sales[0].rowid == rowid then [sales[0]] else []) + WithRowid(sales[1..], rowid)
  }

  /** Executing a statement with bound parameters; `None` is the error the
      engine raises when the parameters do not fit the placeholders, or when
      an integer parameter lies outside 64 bits (`OverflowError`). */
  function Run(t: Table, stmt: Stmt, params: seq<Value>): (r: Option<ResultSet>)
    ensures r.Some? ==> |params| == Placeholders(stmt)
    ensures (exists i :: 0 <= i < |params| && !Bindable(params[i])) ==> r.None?
  {
    if |params| != Placeholders(stmt) || exists i :: 0 <= i < |params| && !Bindable(params[i]) then None
    else match stmt
      case SelectPage(w) =>
        var n := |w|;
        if params[n].Int? && params[n + 1].Int? then
          var hits := Selected(t.sales, w, params[..n]);
          Some(ResultSet(Columns(t), SaleRows(Page(hits, params[n].i, params[n + 1].i))))
        else None
      case CountRows(w) =>
        Some(ResultSet(["COUNT(*)"], [[Int(|Selected(t.sales, w, params)|)]]))
      case SelectByRowid =>
        if params[0].Int? then
          var hits := WithRowid(t.sales, params[0].i);
          Some(ResultSet(["id"] + Columns(t),
                         seq(|hits|, i requires 0 <= i < |hits| => [Int(hits[i].rowid)] + RowValues(hits[i]))))
        else None
  }

  /** The row query, bound to the filter parameters followed by a limit and
      an offset, returns the page of the filtered records, and fails when a
      parameter cannot be bound. */
  lemma RunPage(t: Table, w: seq<Pred>, fp: seq<Value>, limit: int, offset: int)
    requires |w| == |fp|
    ensures Run(t, SelectPage(w), fp + [Int(limit), Int(offset)])
      == if (forall v :: v in fp ==> Bindable(v)) && FitsInt64(limit) && FitsInt64(offset)
         then Some(ResultSet(Columns(t), SaleRows(Page(Selected(t.sales, w, fp), limit, offset))))
         else None
  {
    var params := fp + [Int(limit), Int(offset)];
    assert params[..|w|] == fp;
    assert params[|w|] == Int(limit) && params[|w| + 1] == Int(offset);
    if (forall v :: v in fp ==> Bindable(v)) && FitsInt64(limit) && FitsInt64(offset) {
      forall i | 0 <= i < |params| ensures Bindable(params[i]) {
        if i < |w| {
          assert params[i] == fp[i] && fp[i] in fp;
        }
      }
    } else if !FitsInt64(limit) {
      assert !Bindable(params[|w|]);
    } else if !FitsInt64(offset) {
      assert !Bindable(params[|w| + 1]);
    } else {
      var v :| v in fp && !Bindable(v);
      var i :| 0 <= i < |fp| && fp[i] == v;
      assert params[i] == v;
    }
  }

  /** The count query, bound to the filter parameters alone, returns the
      number of filtered records, and fails when a parameter cannot be bound. */
  lemma RunCount(t: Table, w: seq<Pred>, fp: seq<Value>)
    requires |w| == |fp|
    ensures Run(t, CountRows(w), fp)
      == if forall v :: v in fp ==> Bindable(v)
         then Some(ResultSet(["COUNT(*)"], [[Int(|Selected(t.sales, w, fp)|)]]))
         else None
  {
    if forall v :: v in fp ==> Bindable(v) {
      forall i | 0 <= i < |fp| ensures Bindable(fp[i]) {
        assert fp[i] in fp;
      }
    }
  }

  /** One access to storage: opening a connection, or executing a statement. */
  datatype Access = Opened | Executed(stmt: Stmt, params: seq<Value>)

  /** The read-only database, with the log of every access made to it. */
  class Database {
    const table: Table
    var log: seq<Access>

    constructor (table: Table)
      ensures this.table == table && log == []
    {
      this.table := table;
      log := [];
    }

    /** Opens a read-only connection. */
    method Open()
      modifies this
      ensures log == old(log) + [Opened]
    {
      log := log + [Opened];
    }

    /** Executes a statement and fetches all its rows. */
    method Execute(stmt: Stmt, params: seq<Value>) returns (res: Option<ResultSet>)
      modifies this
      ensures log == old(log) + [Executed(stmt, params)]
      ensures res == Run(table, stmt, params)
    {
      log := log + [Executed(stmt, params)];
      res := Run(table, stmt, params);
    }
  }
}
