/** What the generated `WHERE` clause means for one record: case-insensitive
    containment for the two substring filters and inclusive text bounds for
    the two date filters, each applying only when its filter is truthy. */
module FilterMeaning {
  import opened Wrappers
  import opened Strings
  import opened Sql
  import opened QueryBuilder
  import opened Storage

  /** The filters' meaning, stated without SQL. */
  predicate Matches(s: Sale, f: Filters)
  {
    && (Truthy(f.cliente) ==> IsSubstring(Lower(f.cliente.value), Lower(s.cliente)))
    && (Truthy(f.referencia) ==> IsSubstring(Lower(f.referencia.value), Lower(s.referencia)))
    && (Truthy(f.fechaDesde) ==> TextLe(f.fechaDesde.value, s.fecha))
    && (Truthy(f.fechaHasta) ==> TextLe(s.fecha, f.fechaHasta.value))
  }

  /** The substring filters hold no `LIKE` wildcard, which the handler does
      not escape. */
  predicate Plain(f: Filters)
  {
    && (f.cliente.Some? ==> NoWildcards(f.cliente.value))
    && (f.referencia.Some? ==> NoWildcards(f.referencia.value))
  }

  /** The records that match, in storage order. */
  function Matching(sales: seq<Sale>, f: Filters): (r: seq<Sale>)
    ensures forall s :: s in r <==> s in sales && Matches(s, f)
  {
    if sales == [] then []
    else (if Matches(sales[0], f) then [sales[0]] else []) + Matching(sales[1..], f)
  }

  lemma AllHoldAppend(w1: seq<Pred>, p1: seq<Value>, w2: seq<Pred>, p2: seq<Value>, s: Sale)
    requires |w1| == |p1| && |w2| == |p2|
    ensures AllHold(w1 + w2, p1 + p2, s) <==> AllHold(w1, p1, s) && AllHold(w2, p2, s)
  {
    if AllHold(w1, p1, s) && AllHold(w2, p2, s) {
      forall i | 0 <= i < |w1 + w2| ensures Holds((w1 + w2)[i], (p1 + p2)[i], s) {
        if i >= |w1| {
          assert (w1 + w2)[i] == w2[i - |w1|] && (p1 + p2)[i] == p2[i - |p1|];
        }
      }
    }
    if AllHold(w1 + w2, p1 + p2, s) {
      forall i | 0 <= i < |w1| ensures Holds(w1[i], p1[i], s) {
        assert (w1 + w2)[i] == w1[i] && (p1 + p2)[i] == p1[i];
      }
      forall i | 0 <= i < |w2| ensures Holds(w2[i], p2[i], s) {
        assert (w1 + w2)[i + |w1|] == w2[i] && (p1 + p2)[i + |p1|] == p2[i];
      }
    }
  }

  /** One optional clause of the builder, as a predicate list and a parameter list. */
  lemma OptionalClause(c: bool, p: Pred, v: Value, s: Sale)
    ensures AllHold(if c then [p] else [], if c then [v] else [], s) <==> (c ==> Holds(p, v, s))
  {
    if c {
      assert [p][0] == p && [v][0] == v;
    }
  }

  /** For wildcard-free filters, a record satisfies the generated `WHERE`
      clause with its bound parameters exactly when it matches the filters. */
  lemma QueryMeansMatches(s: Sale, f: Filters)
    requires Plain(f)
    ensures AllHold(Preds(f), FilterParams(f), s) <==> Matches(s, f)
  {
    PredsUnfold(f);
    ParamsUnfold(f);
    var c1, c2, c3, c4 := Truthy(f.cliente), Truthy(f.referencia), Truthy(f.fechaDesde), Truthy(f.fechaHasta);
    var w1: seq<Pred> := if c1 then [LikeLower(Cliente)] else [];
    var w2: seq<Pred> := if c2 then [LikeLower(Referencia)] else [];
    var w3: seq<Pred> := if c3 then [GeFecha] else [];
    var w4: seq<Pred> := if c4 then [LeFecha] else [];
    var v1 := Text(if c1 then LikePattern(f.cliente.value) else "");
    var v2 := Text(if c2 then LikePattern(f.referencia.value) else "");
    var v3 := Text(if c3 then f.fechaDesde.value else "");
    var v4 := Text(if c4 then f.fechaHasta.value else "");
    var p1: seq<Value> := if c1 then [v1] else [];
    var p2: seq<Value> := if c2 then [v2] else [];
    var p3: seq<Value> := if c3 then [v3] else [];
    var p4: seq<Value> := if c4 then [v4] else [];
    assert Preds(f) == w1 + w2 + w3 + w4;
    assert FilterParams(f) == p1 + p2 + p3 + p4;
    AllHoldAppend(w1 + w2 + w3, p1 + p2 + p3, w4, p4, s);
    AllHoldAppend(w1 + w2, p1 + p2, w3, p3, s);
    AllHoldAppend(w1, p1, w2, p2, s);
    OptionalClause(c1, LikeLower(Cliente), v1, s);
    OptionalClause(c2, LikeLower(Referencia), v2, s);
    OptionalClause(c3, GeFecha, v3, s);
    OptionalClause(c4, LeFecha, v4, s);
    if c1 {
      LikeLowerMeansContains(s.cliente, f.cliente.value);
    }
    if c2 {
      LikeLowerMeansContains(s.referencia, f.referencia.value);
    }
  }

  /** The count query counts, and the row query pages through, exactly the
      records that match the filters. */
  lemma {:induction false} SelectedIsMatching(sales: seq<Sale>, f: Filters)
    requires Plain(f)
    ensures Selected(sales, Preds(f), FilterParams(f)) == Matching(sales, f)
  {
    if sales != [] {
      QueryMeansMatches(sales[0], f);
      SelectedIsMatching(sales[1..], f);
    }
  }

  /** Both date bounds are inclusive: a record dated exactly on a bound
      satisfies that bound's predicate. */
  lemma DateBoundsInclusive(s: Sale, bound: string)
    requires s.fecha == bound
    ensures Holds(GeFecha, Text(bound), s) && Holds(LeFecha, Text(bound), s)
  {
    TextLeReflexive(bound);
  }

  /** An inverted date range selects nothing: when `fecha_desde` sorts after
      `fecha_hasta`, no record lies between them. */
  lemma InvertedRangeMatchesNothing(sales: seq<Sale>, f: Filters)
    requires Truthy(f.fechaDesde) && Truthy(f.fechaHasta)
    requires !TextLe(f.fechaDesde.value, f.fechaHasta.value)
    ensures Matching(sales, f) == []
  {
    if Matching(sales, f) != [] {
      var s := Matching(sales, f)[0];
      assert s in Matching(sales, f);
      TextLeTransitive(f.fechaDesde.value, s.fecha, f.fechaHasta.value);
    }
  }

  /** Equal bounds select one day: with `fecha_desde` and `fecha_hasta` both
      `d`, every matching record is dated exactly `d`. */
  lemma EqualBoundsSelectOneDate(sales: seq<Sale>, f: Filters)
    requires Truthy(f.fechaDesde) && f.fechaHasta == f.fechaDesde
    ensures forall s :: s in Matching(sales, f) ==> s.fecha == f.fechaDesde.value
  {
    forall s | s in Matching(sales, f) ensures s.fecha == f.fechaDesde.value {
      TextLeAntisymmetric(s.fecha, f.fechaDesde.value);
    }
  }
}
