/** The integer conversion the handler applies to `limit` and `offset`:
    Python's `int(str)` restricted to an optional sign followed by ASCII
    digits (see README for the forms left out). */
module IntParse {
  import opened Wrappers

  predicate IsDigit(c: char)
  {
    '0' <= c <= '9'
  }

  predicate AllDigits(s: string)
  {
    forall i :: 0 <= i < |s| ==> IsDigit(s[i])
  }

  /** The number a non-empty run of decimal digits denotes. */
  function DigitsValue(s: string): nat
    requires AllDigits(s)
    decreases |s|
  {
    if s == [] then 0
    else 10 * DigitsValue(s[..|s| - 1]) + (s[|s| - 1] as int - '0' as int)
  }

  predicate IsSign(c: char)
  {
    c == '+' || c == '-'
  }

  /** `int(s)`: `Some(n)` for an optionally signed run of at least one digit,
      `None` (a `ValueError` in the source) for anything else. */
  function ParseInt(s: string): (r: Option<int>)
    ensures r.Some? ==> s != [] && AllDigits(if IsSign(s[0]) then s[1..] else s)
    ensures s != [] && AllDigits(s) ==> r == Some(DigitsValue(s))
  {
    if |s| > 0 && IsSign(s[0]) then
      var digits := s[1..];
      if digits != [] && AllDigits(digits) then
        var n: int := DigitsValue(digits);
        Some(if s[0] == '-' then -n else n)
      else None
    else if s != [] && AllDigits(s) then Some(DigitsValue(s))
    else None
  }

  function DigitChar(d: nat): char
    requires d < 10
  {
    ('0' as int + d) as char
  }

  /** Decimal rendering of a natural number, without leading zeros. */
  function ShowNat(n: nat): (r: string)
    ensures r != [] && AllDigits(r)
    ensures |r| > 1 ==> r[0] != '0'
    decreases n
  {
    if n < 10 then [DigitChar(n)] else ShowNat(n / 10) + [DigitChar(n % 10)]
  }

  /** Decimal rendering of an integer, as `str(n)` writes it. */
  function ShowInt(n: int): string
  {
    if n < 0 then "-" + ShowNat(-n) else ShowNat(n)
  }

  lemma {:induction false} DigitsValueShowNat(n: nat)
    ensures DigitsValue(ShowNat(n)) == n
    decreases n
  {
    var r := ShowNat(n);
    if n >= 10 {
      DigitsValueShowNat(n / 10);
      assert r[..|r| - 1] == ShowNat(n / 10);
    }
  }

  /** Every integer the query string can spell in decimal parses back to itself;
      in particular a negative `limit` or `offset` is a valid integer. */
  lemma ParseShowInt(n: int)
    ensures ParseInt(ShowInt(n)) == Some(n)
  {
    var s := ShowInt(n);
    if n < 0 {
      var digits := ShowNat(-n);
      DigitsValueShowNat(-n);
      assert s[0] == '-' && s[1..] == digits;
    } else {
      DigitsValueShowNat(n);
      assert IsDigit(s[0]) && !IsSign(s[0]);
    }
  }

  /** A character that is neither a digit nor a leading sign makes the
      conversion fail, and so does a string with no digits at all. */
  lemma ParseIntRejects(s: string)
    requires s == [] || s == "+" || s == "-"
      || exists k :: 0 <= k < |s| && !IsDigit(s[k]) && !(k == 0 && IsSign(s[k]))
    ensures ParseInt(s) == None
  {
    if s != [] && s != "+" && s != "-" {
      var k :| 0 <= k < |s| && !IsDigit(s[k]) && !(k == 0 && IsSign(s[k]));
      if IsSign(s[0]) {
        assert s[1..][k - 1] == s[k];
      }
    }
  }
}
