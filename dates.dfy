/**
  The order in which the ledger compares sale dates.

  Sale dates are stored in the `date TEXT` column of the Sales table.  SQLite
  compares TEXT under its default BINARY collation, byte by byte on the UTF-8
  encoding with a proper prefix first; on characters that is lexicographic order
  by code point, which is also the order of Python's `<` on `str` (used when the
  report rows are grouped).  `Le` is that order.  The lemmas show it is a total
  order and that on ISO `YYYY-MM-DD` dates it is calendar order.
*/
module Dates {

  /** Lexicographic `a <= b` on character sequences. */
  predicate Le(a: string, b: string)
    decreases |a|
  {
    |a| == 0 || (|b| > 0 && (a[0] < b[0] || (a[0] == b[0] && Le(a[1..], b[1..]))))
  }

  /** Strict lexicographic order. */
  predicate Lt(a: string, b: string)
  {
    Le(a, b) && a != b
  }

  lemma {:induction false} LeReflexive(a: string)
    ensures Le(a, a)
    decreases |a|
  {
    if |a| > 0 {
      LeReflexive(a[1..]);
    }
  }

  lemma {:induction false} LeAntisymmetric(a: string, b: string)
    requires Le(a, b) && Le(b, a)
    ensures a == b
    decreases |a|
  {
    if |a| > 0 {
      LeAntisymmetric(a[1..], b[1..]);
      assert a == [a[0]] + a[1..];
      assert b == [b[0]] + b[1..];
    }
  }

  lemma {:induction false} LeTransitive(a: string, b: string, c: string)
    requires Le(a, b) && Le(b, c)
    ensures Le(a, c)
    decreases |a|
  {
    if |a| > 0 && a[0] == b[0] && b[0] == c[0] {
      LeTransitive(a[1..], b[1..], c[1..]);
    }
  }

  lemma {:induction false} LeTotal(a: string, b: string)
    ensures Le(a, b) || Le(b, a)
    decreases |a|
  {
    if |a| > 0 && |b| > 0 && a[0] == b[0] {
      LeTotal(a[1..], b[1..]);
    }
  }

  /** Not `a <= b` means `b < a`. */
  lemma NotLeIsGt(a: string, b: string)
    requires !Le(a, b)
    ensures Lt(b, a)
  {
    LeTotal(a, b);
    if a == b {
      LeReflexive(a);
    }
  }

  /**
    Comparing two strings that both start with a block of the same length
    compares the blocks first and, only when they are equal, the remainders.
  */
  lemma {:induction false} LeConcat(x: string, y: string, x': string, y': string)
    requires |x| == |x'|
    ensures Le(x + y, x' + y') <==> Lt(x, x') || (x == x' && Le(y, y'))
    decreases |x|
  {
    if |x| == 0 {
      assert x + y == y && x' + y' == y';
      LeReflexive(x);
    } else {
      LeConcat(x[1..], y, x'[1..], y');
      assert (x + y)[0] == x[0] && (x + y)[1..] == x[1..] + y;
      assert (x' + y')[0] == x'[0] && (x' + y')[1..] == x'[1..] + y';
      assert x == [x[0]] + x[1..];
      assert x' == [x'[0]] + x'[1..];
      if x[0] == x'[0] && x[1..] == x'[1..] {
        LeReflexive(x[1..]);
      }
    }
  }

  /** Strings that share a prefix compare as their remainders do. */
  lemma CommonPrefix(p: string, y: string, y': string)
    ensures Le(p + y, p + y') <==> Le(y, y')
  {
    LeConcat(p, y, p, y');
  }

  predicate IsDigit(c: char)
  {
    '0' <= c <= '9'
  }

  predicate AllDigits(s: string)
  {
    forall i :: 0 <= i < |s| ==> IsDigit(s[i])
  }

  /** The number a string of decimal digits spells, most significant first. */
  function Value(s: string): (v: nat)
    requires AllDigits(s)
    decreases |s|
  {
    if |s| == 0 then 0
    else 10 * Value(s[..|s| - 1]) + (s[|s| - 1] as int - '0' as int)
  }

  /** On digit strings of one width, lexicographic order is numeric order. */
  lemma {:induction false} LeDigits(a: string, b: string)
    requires |a| == |b| && AllDigits(a) && AllDigits(b)
    ensures Le(a, b) <==> Value(a) <= Value(b)
    decreases |a|
  {
    var n := |a|;
    if n == 0 {
      LeReflexive(a);
    } else {
      var a', b' := a[..n - 1], b[..n - 1];
      var x, y := [a[n - 1]], [b[n - 1]];
      assert a == a' + x && b == b' + y;
      LeConcat(a', x, b', y);
      LeDigits(a', b');
      LeDigits(b', a');
      if Value(a') == Value(b') {
        LeAntisymmetric(a', b');
      }
      assert Le(x, y) <==> x[0] <= y[0] by {
        assert x[1..] == [] && y[1..] == [];
      }
    }
  }

  /** Digit strings of one width that spell the same number are equal. */
  lemma ValueInjective(a: string, b: string)
    requires |a| == |b| && AllDigits(a) && AllDigits(b)
    requires Value(a) == Value(b)
    ensures a == b
  {
    LeDigits(a, b);
    LeDigits(b, a);
    LeAntisymmetric(a, b);
  }

  /** The `%Y-%m-%d` layout that `strftime` and `date.isoformat` produce. */
  predicate IsIsoDate(s: string)
  {
    && |s| == 10
    && AllDigits(s[..4]) && s[4] == '-'
    && AllDigits(s[5..7]) && s[7] == '-'
    && AllDigits(s[8..])
  }

  function Year(s: string): nat
    requires IsIsoDate(s)
  {
    Value(s[..4])
  }

  function Month(s: string): nat
    requires IsIsoDate(s)
  {
    Value(s[5..7])
  }

  function Day(s: string): nat
    requires IsIsoDate(s)
  {
    Value(s[8..])
  }

  /** Calendar order: by year, then month, then day. */
  predicate OnOrBefore(a: string, b: string)
    requires IsIsoDate(a) && IsIsoDate(b)
  {
    || Year(a) < Year(b)
    || (Year(a) == Year(b) && (Month(a) < Month(b) || (Month(a) == Month(b) && Day(a) <= Day(b))))
  }

  /** Lt on two equal-width digit fields is numeric `<`. */
  lemma LtDigits(a: string, b: string)
    requires |a| == |b| && AllDigits(a) && AllDigits(b)
    ensures Lt(a, b) <==> Value(a) < Value(b)
    ensures a == b <==> Value(a) == Value(b)
  {
    LeDigits(a, b);
    if Value(a) == Value(b) {
      ValueInjective(a, b);
    }
  }

  /**
    On ISO dates the text order SQLite and Python use is calendar order, so
    `BETWEEN` and `ORDER BY date` on the stored strings filter and sort by day.
  */
  lemma IsoTextOrderIsCalendarOrder(a: string, b: string)
    requires IsIsoDate(a) && IsIsoDate(b)
    ensures Le(a, b) <==> OnOrBefore(a, b)
  {
    assert a == a[..4] + ([a[4]] + (a[5..7] + ([a[7]] + a[8..])));
    assert b == b[..4] + ([b[4]] + (b[5..7] + ([b[7]] + b[8..])));
    LeConcat(a[..4], [a[4]] + (a[5..7] + ([a[7]] + a[8..])), b[..4], [b[4]] + (b[5..7] + ([b[7]] + b[8..])));
    LeConcat([a[4]], a[5..7] + ([a[7]] + a[8..]), [b[4]], b[5..7] + ([b[7]] + b[8..]));
    LeConcat(a[5..7], [a[7]] + a[8..], b[5..7], [b[7]] + b[8..]);
    LeConcat([a[7]], a[8..], [b[7]], b[8..]);
    LtDigits(a[..4], b[..4]);
    LtDigits(a[5..7], b[5..7]);
    LeDigits(a[8..], b[8..]);
    assert !Lt([a[4]], [b[4]]) && !Lt([a[7]], [b[7]]);
  }
}
