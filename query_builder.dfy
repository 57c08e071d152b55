/** The filter/query builder of the `/ventas` list handler: which predicates
    and bound parameters the optional filters contribute, in which order, and
    the `WHERE` text shared by the row query and the count query. */
module QueryBuilder {
  import opened Wrappers
  import opened Strings
  import opened Sql

  /** The four optional text filters read from the query string. */
  datatype Filters = Filters(
    cliente: Option<string>,
    referencia: Option<string>,
    fechaDesde: Option<string>,
    fechaHasta: Option<string>)

  /** The two text columns the substring filters search. */
  datatype Column = Cliente | Referencia

  /** One predicate of the `WHERE` clause, each with one `?` placeholder:
      `LOWER(col) LIKE ?`, `fecha >= ?` or `fecha <= ?`. */
  datatype Pred = LikeLower(col: Column) | GeFecha | LeFecha

  /** Python truthiness of an optional string: absent and `""` are both false. */
  predicate Truthy(o: Option<string>)
  {
    o.Some? && o.value != ""
  }

  /** Every predicate the builder can emit, in the order the filters are tested. */
  const ALL_PREDS: seq<Pred> := [LikeLower(Cliente), LikeLower(Referencia), GeFecha, LeFecha]

  /** Position of a predicate in the fixed order. */
  function Rank(p: Pred): nat
  {
    match p
    case LikeLower(Cliente) => 0
    case LikeLower(Referencia) => 1
    case GeFecha => 2
    case LeFecha => 3
  }

  /** The filter that switches a predicate on. */
  function Source(f: Filters, p: Pred): Option<string>
  {
    match p
    case LikeLower(Cliente) => f.cliente
    case LikeLower(Referencia) => f.referencia
    case GeFecha => f.fechaDesde
    case LeFecha => f.fechaHasta
  }

  /** The `LIKE` pattern for a substring filter: the value, lower-cased,
      between two `%`. */
  function LikePattern(v: string): string
  {
    "%" + Lower(v) + "%"
  }

  /** The parameter a predicate binds for filter value `v`: the `LIKE`
      pattern for a substring filter, the raw value for a date bound. */
  function Binding(p: Pred, v: string): Value
  {
    if p.LikeLower? then Text(LikePattern(v)) else Text(v)
  }

  /** The predicates of `ps` whose filter is truthy, in the order of `ps`. */
  function Active(f: Filters, ps: seq<Pred>): seq<Pred>
  {
    if ps == [] then []
    else (if Truthy(Source(f, ps[0])) then [ps[0]] else []) + Active(f, ps[1..])
  }

  /** The specification of the predicate list the handler builds. */
  function Preds(f: Filters): (r: seq<Pred>)
    ensures |r| <= 4
    ensures forall p :: p in r ==> Truthy(Source(f, p))
  {
    ActiveBound(f, ALL_PREDS);
    Active(f, ALL_PREDS)
  }

  lemma {:induction false} ActiveBound(f: Filters, ps: seq<Pred>)
    ensures |Active(f, ps)| <= |ps|
    ensures forall p :: p in Active(f, ps) ==> Truthy(Source(f, p))
  {
    if ps != [] {
      ActiveBound(f, ps[1..]);
    }
  }

  /** The parameters the truthy filters of `ps` bind, in the order of `ps`. */
  function ActiveParams(f: Filters, ps: seq<Pred>): seq<Value>
  {
    if ps == [] then []
    else
      (if Truthy(Source(f, ps[0])) then [Binding(ps[0], Source(f, ps[0]).value)] else [])
      + ActiveParams(f, ps[1..])
  }

  /** The specification of the filter parameter list: one parameter for each
      predicate of `Preds(f)`. */
  function FilterParams(f: Filters): (r: seq<Value>)
    ensures |r| == |Preds(f)|
    ensures forall v :: v in r ==> v.Text?
  {
    ActiveAligned(f, ALL_PREDS);
    ActiveParams(f, ALL_PREDS)
  }

  /** The `where` and `params` lists, built as the handler builds them: one
      conditional pair of appends per filter, in source order. */
  method BuildFilterLists(f: Filters) returns (where: seq<Pred>, params: seq<Value>)
    ensures where == Preds(f) && params == FilterParams(f)
  {
    where, params := [], [];
    if Truthy(f.cliente) {
      where := where + [LikeLower(Cliente)];
      params := params + [Text(LikePattern(f.cliente.value))];
    }
    if Truthy(f.referencia) {
      where := where + [LikeLower(Referencia)];
      params := params + [Text(LikePattern(f.referencia.value))];
    }
    if Truthy(f.fechaDesde) {
      where := where + [GeFecha];
      params := params + [Text(f.fechaDesde.value)];
    }
    if Truthy(f.fechaHasta) {
      where := where + [LeFecha];
      params := params + [Text(f.fechaHasta.value)];
    }
    PredsUnfold(f);
    ParamsUnfold(f);
  }

  /** `Preds` spelled out filter by filter. */
  lemma PredsUnfold(f: Filters)
    ensures Preds(f) ==
      (if Truthy(f.cliente) then [LikeLower(Cliente)] else [])
      + (if Truthy(f.referencia) then [LikeLower(Referencia)] else [])
      + (if Truthy(f.fechaDesde) then [GeFecha] else [])
      + (if Truthy(f.fechaHasta) then [LeFecha] else [])
  {
    var ps := ALL_PREDS;
    assert ps[1..][1..][1..][1..] == [];
  }

  /** `FilterParams` spelled out filter by filter. */
  lemma ParamsUnfold(f: Filters)
    ensures FilterParams(f) ==
      (if Truthy(f.cliente) then [Text(LikePattern(f.cliente.value))] else [])
      + (if Truthy(f.referencia) then [Text(LikePattern(f.referencia.value))] else [])
      + (if Truthy(f.fechaDesde) then [Text(f.fechaDesde.value)] else [])
      + (if Truthy(f.fechaHasta) then [Text(f.fechaHasta.value)] else [])
  {
    var ps := ALL_PREDS;
    assert ps[1..][1..][1..][1..] == [];
  }

  lemma {:induction false} ActiveAligned(f: Filters, ps: seq<Pred>)
    ensures |ActiveParams(f, ps)| == |Active(f, ps)|
    ensures forall i :: 0 <= i < |Active(f, ps)| ==>
      Truthy(Source(f, Active(f, ps)[i]))
      && ActiveParams(f, ps)[i] == Binding(Active(f, ps)[i], Source(f, Active(f, ps)[i]).value)
  {
    if ps != [] {
      ActiveAligned(f, ps[1..]);
    }
  }

  /** Predicates and parameters are parallel lists: the parameter at each
      position is the one its predicate's filter binds, the lower-cased `LIKE`
      pattern for a substring filter and the raw value for a date bound. */
  lemma ParamsAligned(f: Filters)
    ensures |FilterParams(f)| == |Preds(f)|
    ensures forall i :: 0 <= i < |Preds(f)| ==>
      Truthy(Source(f, Preds(f)[i]))
      && FilterParams(f)[i] == Binding(Preds(f)[i], Source(f, Preds(f)[i]).value)
  {
    ActiveAligned(f, ALL_PREDS);
  }

  /** How many filters are truthy. */
  function TruthyCount(f: Filters): nat
  {
    (if Truthy(f.cliente) then 1 else 0) + (if Truthy(f.referencia) then 1 else 0)
    + (if Truthy(f.fechaDesde) then 1 else 0) + (if Truthy(f.fechaHasta) then 1 else 0)
  }

  /** Each truthy filter adds exactly one predicate and one parameter. */
  lemma CountsAgree(f: Filters)
    ensures |Preds(f)| == |FilterParams(f)| == TruthyCount(f)
  {
    PredsUnfold(f);
    ParamsUnfold(f);
  }

  lemma {:induction false} ActiveMember(f: Filters, ps: seq<Pred>, p: Pred)
    ensures p in Active(f, ps) <==> p in ps && Truthy(Source(f, p))
  {
    if ps != [] {
      ActiveMember(f, ps[1..], p);
      assert ps == [ps[0]] + ps[1..];
    }
  }

  predicate StrictlyOrdered(ps: seq<Pred>)
  {
    forall i, j :: 0 <= i < j < |ps| ==> Rank(ps[i]) < Rank(ps[j])
  }

  /** The predicates kept from position `k` of the fixed order on are
      ordered and all rank at least `k`. */
  lemma {:induction false} ActiveFrom(f: Filters, k: nat)
    requires k <= |ALL_PREDS|
    ensures StrictlyOrdered(Active(f, ALL_PREDS[k..]))
    ensures forall q :: q in Active(f, ALL_PREDS[k..]) ==> k <= Rank(q)
    decreases |ALL_PREDS| - k
  {
    if k < |ALL_PREDS| {
      var head := ALL_PREDS[k];
      assert Rank(head) == k;
      assert ALL_PREDS[k..][1..] == ALL_PREDS[k + 1..];
      ActiveFrom(f, k + 1);
      var tail := Active(f, ALL_PREDS[k + 1..]);
      if Truthy(Source(f, head)) {
        var r := [head] + tail;
        forall i, j | 0 <= i < j < |r| ensures Rank(r[i]) < Rank(r[j]) {
          assert r[j] == tail[j - 1] && tail[j - 1] in tail;
          if i > 0 {
            assert r[i] == tail[i - 1];
          }
        }
      }
    }
  }

  /** The predicates appear in the fixed order cliente, referencia,
      fecha_desde, fecha_hasta, each at most once. */
  lemma PredsInFixedOrder(f: Filters)
    ensures StrictlyOrdered(Preds(f))
  {
    ActiveFrom(f, 0);
    assert ALL_PREDS[0..] == ALL_PREDS;
  }

  /** A predicate is in the list exactly when its filter is truthy; an absent
      or empty-string filter contributes nothing. */
  lemma PredPresentIffTruthy(f: Filters, p: Pred)
    ensures p in Preds(f) <==> Truthy(Source(f, p))
  {
    ActiveMember(f, ALL_PREDS, p);
    assert p in ALL_PREDS by {
      assert ALL_PREDS[Rank(p)] == p;
    }
  }

  /** Only truthy values reach the query: replacing an empty-string filter by
      an absent one changes neither list. */
  lemma EmptyFilterIsAbsent(f: Filters, g: Filters)
    requires forall p :: Source(g, p) == Source(f, p) || (Source(f, p) == Some("") && Source(g, p) == None)
    ensures Preds(g) == Preds(f) && FilterParams(g) == FilterParams(f)
  {
    assert forall p :: Truthy(Source(g, p)) == Truthy(Source(f, p));
    PredsUnfold(f);
    PredsUnfold(g);
    ParamsUnfold(f);
    ParamsUnfold(g);
    assert g.cliente == Source(g, LikeLower(Cliente)) && f.cliente == Source(f, LikeLower(Cliente));
    assert g.referencia == Source(g, LikeLower(Referencia)) && f.referencia == Source(f, LikeLower(Referencia));
    assert g.fechaDesde == Source(g, GeFecha) && f.fechaDesde == Source(f, GeFecha);
    assert g.fechaHasta == Source(g, LeFecha) && f.fechaHasta == Source(f, LeFecha);
  }

  /** The substring filters are case-insensitive: values that lower-case alike
      give the same predicates and the same parameters. */
  lemma SubstringFiltersIgnoreCase(f: Filters, g: Filters)
    requires f.fechaDesde == g.fechaDesde && f.fechaHasta == g.fechaHasta
    requires f.cliente.Some? == g.cliente.Some? && f.referencia.Some? == g.referencia.Some?
    requires f.cliente.Some? ==> Lower(f.cliente.value) == Lower(g.cliente.value)
    requires f.referencia.Some? ==> Lower(f.referencia.value) == Lower(g.referencia.value)
    ensures Preds(g) == Preds(f) && FilterParams(g) == FilterParams(f)
  {
    PredsUnfold(f);
    PredsUnfold(g);
    ParamsUnfold(f);
    ParamsUnfold(g);
    assert f.cliente.Some? ==> |f.cliente.value| == |Lower(f.cliente.value)|;
    assert f.referencia.Some? ==> |f.referencia.value| == |Lower(f.referencia.value)|;
    assert Preds(g) == Preds(f);
  }

  /** The SQL text of one predicate. */
  function PredSql(p: Pred): string
  {
    match p
    case LikeLower(Cliente) => "LOWER(cliente) LIKE ?"
    case LikeLower(Referencia) => "LOWER(referencia) LIKE ?"
    case GeFecha => "fecha >= ?"
    case LeFecha => "fecha <= ?"
  }

  function Fragments(where: seq<Pred>): seq<string>
  {
    seq(|where|, i requires 0 <= i < |where| => PredSql(where[i]))
  }

  /** `where_sql`: nothing when there is no predicate, otherwise `WHERE `
      followed by the predicates joined with ` AND `. */
  function WhereSql(where: seq<Pred>): (r: string)
    ensures r == "" <==> where == []
    ensures where != [] ==> |r| > 6 && r[..6] == "WHERE "
  {
    if where == [] then "" else "WHERE " + Joined(where)
  }

  /** The fragments of the four predicates first differ at position 6. */
  lemma PredSqlKey(p: Pred, q: Pred)
    ensures |PredSql(p)| > 6
    ensures PredSql(p)[6] == PredSql(q)[6] ==> p == q
  {
  }

  /** The predicates joined with ` AND `. */
  function Joined(where: seq<Pred>): string
  {
    Join(" AND ", Fragments(where))
  }

  lemma JoinedCons(where: seq<Pred>)
    requires where != []
    ensures Joined(where) == PredSql(where[0]) + (if |where| == 1 then "" else " AND " + Joined(where[1..]))
  {
    if |where| > 1 {
      assert Fragments(where)[1..] == Fragments(where[1..]);
    }
  }

  lemma CancelPrefix(a: string, r1: string, r2: string)
    requires a + r1 == a + r2
    ensures r1 == r2
  {
    assert r1 == (a + r1)[|a|..] && r2 == (a + r2)[|a|..];
  }

  lemma {:induction false} JoinedInjective(w1: seq<Pred>, w2: seq<Pred>)
    requires w1 != [] && w2 != []
    requires Joined(w1) == Joined(w2)
    ensures w1 == w2
  {
    var a, b := PredSql(w1[0]), PredSql(w2[0]);
    var r1 := if |w1| == 1 then "" else " AND " + Joined(w1[1..]);
    var r2 := if |w2| == 1 then "" else " AND " + Joined(w2[1..]);
    JoinedCons(w1);
    JoinedCons(w2);
    PredSqlKey(w1[0], w2[0]);
    assert (a + r1)[6] == a[6] && (b + r2)[6] == b[6];
    assert w1[0] == w2[0];
    CancelPrefix(a, r1, r2);
    if |w1| > 1 && |w2| > 1 {
      CancelPrefix(" AND ", Joined(w1[1..]), Joined(w2[1..]));
      JoinedInjective(w1[1..], w2[1..]);
      assert w1 == [w1[0]] + w1[1..] && w2 == [w2[0]] + w2[1..];
    } else {
      assert |r1| == 0 <==> |w1| == 1;
      assert |r2| == 0 <==> |w2| == 1;
    }
  }

  /** The `WHERE` text determines the predicate list: the row query and the
      count query, which share the text, constrain the rows identically. */
  lemma WhereSqlInjective(w1: seq<Pred>, w2: seq<Pred>)
    requires WhereSql(w1) == WhereSql(w2)
    ensures w1 == w2
  {
    if w1 != [] && w2 != [] {
      assert Joined(w1) == WhereSql(w1)[6..] && Joined(w2) == WhereSql(w2)[6..];
      JoinedInjective(w1, w2);
    }
  }

  /** With no truthy filter there is no predicate, no parameter and no
      `WHERE` text; with one, the text starts with `WHERE `. */
  lemma NoFiltersNoWhere(f: Filters)
    ensures Preds(f) == [] <==> TruthyCount(f) == 0
    ensures FilterParams(f) == [] <==> TruthyCount(f) == 0
    ensures WhereSql(Preds(f)) == "" <==> TruthyCount(f) == 0
    ensures TruthyCount(f) > 0 ==> WhereSql(Preds(f))[..6] == "WHERE "
  {
    CountsAgree(f);
  }
}
