/** What the storage engine does with the two kinds of predicate the handler
    generates: `LIKE` pattern matching and text comparison. This is the SQLite
    behaviour the query relies on, stated here so that the generated query can
    be given a meaning; it is not part of the program itself. */
module Sql {
  import opened Strings

  /** A value bound to a `?` placeholder, or read back from a column. */
  datatype Value = Text(s: string) | Int(i: int)

  predicate NoWildcards(w: string)
  {
    forall i :: 0 <= i < |w| ==> w[i] != '%' && w[i] != '_'
  }

  /** Equality up to ASCII case, the character comparison `LIKE` uses. */
  predicate CaseFoldEq(a: string, b: string)
  {
    |a| == |b| && forall i :: 0 <= i < |a| ==> LowerChar(a[i]) == LowerChar(b[i])
  }

  /** `s LIKE p`: `%` matches any run of characters, `_` any one character,
      every other pattern character matches itself up to ASCII case. */
  predicate Like(s: string, p: string)
    decreases |s| + |p|
  {
    if p == [] then s == []
    else if p[0] == '%' then Like(s, p[1..]) || (s != [] && Like(s[1..], p))
    else s != [] && (p[0] == '_' || LowerChar(s[0]) == LowerChar(p[0])) && Like(s[1..], p[1..])
  }

  /** Text comparison `a <= b` under the BINARY collation: character by
      character, a proper prefix sorting first. */
  predicate TextLe(a: string, b: string)
  {
    if a == [] then true
    else if b == [] then false
    else if a[0] != b[0] then a[0] < b[0]
    else TextLe(a[1..], b[1..])
  }

  /** A wildcard-free pattern prefix consumes exactly its own length of the
      subject, matching up to case. */
  lemma {:induction false} LikeLiteralPrefix(s: string, w: string, q: string)
    requires NoWildcards(w)
    ensures Like(s, w + q) <==> |w| <= |s| && CaseFoldEq(s[..|w|], w) && Like(s[|w|..], q)
  {
    if w == [] {
      assert w + q == q;
      assert s[..0] == [] && s[0..] == s;
    } else {
      var p := w + q;
      assert p[0] == w[0] && p[1..] == w[1..] + q;
      if s != [] {
        LikeLiteralPrefix(s[1..], w[1..], q);
        if |w| <= |s| {
          assert s[1..][|w| - 1..] == s[|w|..];
          var a, b := s[..|w|], s[1..][..|w| - 1];
          assert a == [s[0]] + b;
          assert CaseFoldEq(a, w) <==> LowerChar(s[0]) == LowerChar(w[0]) && CaseFoldEq(b, w[1..]) by {
            if CaseFoldEq(a, w) {
              forall i | 0 <= i < |b| ensures LowerChar(b[i]) == LowerChar(w[1..][i]) {
                assert b[i] == a[i + 1];
              }
            }
            if LowerChar(s[0]) == LowerChar(w[0]) && CaseFoldEq(b, w[1..]) {
              forall i | 0 <= i < |a| ensures LowerChar(a[i]) == LowerChar(w[i]) {
                if i > 0 { assert a[i] == b[i - 1]; }
              }
            }
          }
        }
      }
    }
  }

  /** `%` alone matches every string. */
  lemma {:induction false} LikeAll(s: string)
    ensures Like(s, "%")
  {
    assert "%"[1..] == [];
    if s != [] {
      LikeAll(s[1..]);
    }
  }

  /** A leading `%` lets the rest of the pattern match any suffix. */
  lemma {:induction false} LikeLeadingPercent(s: string, q: string)
    ensures Like(s, "%" + q) <==> exists i :: 0 <= i <= |s| && Like(s[i..], q)
  {
    var p := "%" + q;
    assert p[0] == '%' && p[1..] == q;
    assert s[0..] == s;
    if s != [] {
      LikeLeadingPercent(s[1..], q);
      if Like(s, p) && !Like(s, q) {
        var i :| 0 <= i <= |s| - 1 && Like(s[1..][i..], q);
        assert s[1..][i..] == s[i + 1..];
      }
      if exists i :: 0 <= i <= |s| && Like(s[i..], q) {
        var i :| 0 <= i <= |s| && Like(s[i..], q);
        if i > 0 {
          assert s[1..][i - 1..] == s[i..];
        }
      }
    }
  }

  /** `s LIKE '%w%'` for a wildcard-free `w` is case-insensitive containment. */
  lemma LikeContains(s: string, w: string)
    requires NoWildcards(w)
    ensures Like(s, "%" + w + "%") <==> exists i :: 0 <= i <= |s| - |w| && CaseFoldEq(s[i..][..|w|], w)
  {
    assert "%" + w + "%" == "%" + (w + "%");
    LikeLeadingPercent(s, w + "%");
    forall i | 0 <= i <= |s|
      ensures Like(s[i..], w + "%") <==> |w| <= |s| - i && CaseFoldEq(s[i..][..|w|], w)
    {
      LikeLiteralPrefix(s[i..], w, "%");
      if |w| <= |s| - i {
        LikeAll(s[i..][|w|..]);
      }
    }
  }

  /** On lower-case strings, equality up to case is plain equality. */
  lemma CaseFoldEqLower(a: string, b: string)
    requires IsLower(a) && IsLower(b)
    ensures CaseFoldEq(a, b) <==> a == b
  {
    if CaseFoldEq(a, b) {
      forall i | 0 <= i < |a| ensures a[i] == b[i] {
        assert LowerChar(a[i]) == a[i] && LowerChar(b[i]) == b[i];
      }
    }
  }

  /** The substring filter: `LOWER(col) LIKE '%' || lower(v) || '%'` holds
      exactly when the lower-cased value occurs in the lower-cased column,
      provided the value holds no `LIKE` wildcard. */
  lemma LikeLowerMeansContains(col: string, v: string)
    requires NoWildcards(v)
    ensures Like(Lower(col), "%" + Lower(v) + "%") <==> IsSubstring(Lower(v), Lower(col))
  {
    var s, w := Lower(col), Lower(v);
    assert NoWildcards(w) by {
      forall i | 0 <= i < |w| ensures w[i] != '%' && w[i] != '_' {
        assert w[i] == LowerChar(v[i]);
      }
    }
    LikeContains(s, w);
    forall i | 0 <= i <= |s| - |w|
      ensures CaseFoldEq(s[i..][..|w|], w) <==> OccursAt(w, s, i)
    {
      assert s[i..][..|w|] == s[i..i + |w|];
      CaseFoldEqLower(s[i..i + |w|], w);
    }
  }

  lemma {:induction false} TextLeReflexive(a: string)
    ensures TextLe(a, a)
  {
    if a != [] {
      TextLeReflexive(a[1..]);
    }
  }

  lemma {:induction false} TextLeAntisymmetric(a: string, b: string)
    requires TextLe(a, b) && TextLe(b, a)
    ensures a == b
  {
    if a != [] && b != [] {
      TextLeAntisymmetric(a[1..], b[1..]);
      assert a == [a[0]] + a[1..] && b == [b[0]] + b[1..];
    }
  }

  lemma {:induction false} TextLeTransitive(a: string, b: string, c: string)
    requires TextLe(a, b) && TextLe(b, c)
    ensures TextLe(a, c)
  {
    if a != [] && b != [] && c != [] && a[0] == b[0] && b[0] == c[0] {
      TextLeTransitive(a[1..], b[1..], c[1..]);
    }
  }
}
