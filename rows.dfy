/** Response shaping: `rows_to_dicts` turns each fetched row into a mapping
    from the column names the cursor reports to the row's values. A Python
    dict is an insertion-ordered association list: assigning to a key that is
    already present replaces its value in place. */
module Rows {
  import opened Wrappers

  type Dict<V> = seq<(string, V)>

  function Keys<V>(d: Dict<V>): seq<string>
  {
    seq(|d|, i requires 0 <= i < |d| => d[i].0)
  }

  predicate Distinct(s: seq<string>)
  {
    forall i, j :: 0 <= i < j < |s| ==> s[i] != s[j]
  }

  /** `d.get(k)`. */
  function Lookup<V>(d: Dict<V>, k: string): Option<V>
  {
    if d == [] then None
    else if d[0].0 == k then Some(d[0].1)
    else Lookup(d[1..], k)
  }

  /** `d[k] = v`. */
  function Put<V>(d: Dict<V>, k: string, v: V): Dict<V>
  {
    if d == [] then [(k, v)]
    else if d[0].0 == k then [(k, v)] + d[1..]
    else [d[0]] + Put(d[1..], k, v)
  }

  /** `dict(pairs)`: the pairs assigned one after the other. */
  function DictOf<V>(pairs: seq<(string, V)>): (r: Dict<V>)
    ensures forall k :: k in Keys(r) <==> k in Keys(pairs)
    ensures Distinct(Keys(r))
  {
    if pairs == [] then []
    else
      var n := |pairs| - 1;
      var init := DictOf(pairs[..n]);
      PutKeys(init, pairs[n].0, pairs[n].1);
      assert Keys(pairs) == Keys(pairs[..n]) + [pairs[n].0];
      Put(init, pairs[n].0, pairs[n].1)
  }

  /** `zip(a, b)`: stops at the shorter sequence. */
  function Zip<A, B>(a: seq<A>, b: seq<B>): (r: seq<(A, B)>)
    ensures |r| == if |a| < |b| then |a| else |b|
    ensures forall i :: 0 <= i < |r| ==> r[i] == (a[i], b[i])
  {
    if a == [] || b == [] then [] else [(a[0], b[0])] + Zip(a[1..], b[1..])
  }

  /** `rows_to_dicts(cur, rows)` for the column names `cols` of the cursor. */
  function RowsToDicts<V>(cols: seq<string>, rows: seq<seq<V>>): (r: seq<Dict<V>>)
    ensures |r| == |rows|
    ensures forall i :: 0 <= i < |r| ==> Distinct(Keys(r[i]))
  {
    seq(|rows|, i requires 0 <= i < |rows| => DictOf(Zip(cols, rows[i])))
  }

  /** `rows_to_dicts` shapes each row on its own. */
  lemma RowsToDictsAppend<V>(cols: seq<string>, xs: seq<seq<V>>, ys: seq<seq<V>>)
    ensures RowsToDicts(cols, xs + ys) == RowsToDicts(cols, xs) + RowsToDicts(cols, ys)
  {
    assert |RowsToDicts(cols, xs + ys)| == |RowsToDicts(cols, xs) + RowsToDicts(cols, ys)|;
    forall i | 0 <= i < |xs + ys|
      ensures RowsToDicts(cols, xs + ys)[i] == (RowsToDicts(cols, xs) + RowsToDicts(cols, ys))[i]
    {
      if i >= |xs| {
        assert (xs + ys)[i] == ys[i - |xs|];
      }
    }
  }

  /** The value last paired with `k`: what a dict built from `pairs` holds. */
  function LastValue<V>(pairs: seq<(string, V)>, k: string): Option<V>
  {
    if pairs == [] then None
    else if pairs[|pairs| - 1].0 == k then Some(pairs[|pairs| - 1].1)
    else LastValue(pairs[..|pairs| - 1], k)
  }

  lemma {:induction false} PutLookup<V>(d: Dict<V>, k: string, v: V, k': string)
    ensures Lookup(Put(d, k, v), k') == if k' == k then Some(v) else Lookup(d, k')
  {
    if d != [] && d[0].0 != k {
      PutLookup(d[1..], k, v, k');
      assert Put(d, k, v)[1..] == Put(d[1..], k, v);
    }
  }

  lemma {:induction false} PutKeys<V>(d: Dict<V>, k: string, v: V)
    ensures Keys(Put(d, k, v)) == if k in Keys(d) then Keys(d) else Keys(d) + [k]
  {
    if d != [] {
      assert Keys(d) == [d[0].0] + Keys(d[1..]);
      if d[0].0 != k {
        PutKeys(d[1..], k, v);
        assert Keys(Put(d, k, v)) == [d[0].0] + Keys(Put(d[1..], k, v));
      } else {
        assert Keys(Put(d, k, v)) == [k] + Keys(d[1..]);
      }
    }
  }

  /** A dict built from pairs maps each key to the value last paired with it. */
  lemma {:induction false} DictOfLookup<V>(pairs: seq<(string, V)>, k: string)
    ensures Lookup(DictOf(pairs), k) == LastValue(pairs, k)
  {
    if pairs != [] {
      var n := |pairs| - 1;
      DictOfLookup(pairs[..n], k);
      PutLookup(DictOf(pairs[..n]), pairs[n].0, pairs[n].1, k);
    }
  }

  /** When the pair keys are already distinct, the dict is the pairs, in order. */
  lemma {:induction false} DictOfDistinctKeys<V>(pairs: seq<(string, V)>)
    requires Distinct(Keys(pairs))
    ensures DictOf(pairs) == pairs
  {
    if pairs != [] {
      var n := |pairs| - 1;
      var init := pairs[..n];
      assert Keys(init) == Keys(pairs)[..n];
      DictOfDistinctKeys(init);
      PutKeys(init, pairs[n].0, pairs[n].1);
      assert pairs[n].0 == Keys(pairs)[n];
      PutAppends(init, pairs[n].0, pairs[n].1);
      assert pairs == init + [pairs[n]];
    }
  }

  lemma {:induction false} PutAppends<V>(d: Dict<V>, k: string, v: V)
    requires k !in Keys(d)
    ensures Put(d, k, v) == d + [(k, v)]
  {
    if d != [] {
      assert Keys(d) == [d[0].0] + Keys(d[1..]);
      PutAppends(d[1..], k, v);
      assert d == [d[0]] + d[1..];
    }
  }

  /** For distinct column names and rows as wide as the column list, each row
      becomes one mapping, in row order, whose keys are the column names in
      order and whose value under each column is the row's value there. */
  lemma RowsToDictsShape<V>(cols: seq<string>, rows: seq<seq<V>>)
    requires Distinct(cols)
    requires forall i :: 0 <= i < |rows| ==> |rows[i]| == |cols|
    ensures |RowsToDicts(cols, rows)| == |rows|
    ensures forall i :: 0 <= i < |rows| ==> Keys(RowsToDicts(cols, rows)[i]) == cols
    ensures forall i, j :: 0 <= i < |rows| && 0 <= j < |cols| ==>
      Lookup(RowsToDicts(cols, rows)[i], cols[j]) == Some(rows[i][j])
  {
    forall i | 0 <= i < |rows|
      ensures Keys(RowsToDicts(cols, rows)[i]) == cols
      ensures forall j :: 0 <= j < |cols| ==> Lookup(RowsToDicts(cols, rows)[i], cols[j]) == Some(rows[i][j])
    {
      var pairs := Zip(cols, rows[i]);
      assert Keys(pairs) == cols;
      DictOfDistinctKeys(pairs);
      forall j | 0 <= j < |cols| ensures Lookup(pairs, cols[j]) == Some(rows[i][j]) {
        LookupAt(pairs, j);
      }
    }
  }

  /** In a dict with distinct keys, the key at position `j` finds the value there. */
  lemma {:induction false} LookupAt<V>(d: Dict<V>, j: int)
    requires Distinct(Keys(d)) && 0 <= j < |d|
    ensures Lookup(d, d[j].0) == Some(d[j].1)
  {
    if j > 0 {
      assert Keys(d[1..]) == Keys(d)[1..];
      assert Keys(d)[0] != Keys(d)[j];
      LookupAt(d[1..], j - 1);
    }
  }
}
