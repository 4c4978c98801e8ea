/** Quotients and remainders of natural numbers. */
module Division {

  lemma {:induction false} DivModUnique(a: nat, m: nat, q: nat, r: nat)
    requires m > 0 && r < m && a == q * m + r
    ensures a / m == q && a % m == r
  {
    var q', r' := a / m, a % m;
    var gap: int, rest: int := q as int - q', r' as int - r;
    assert gap * m == rest;
    if gap > 0 {
      TimesAtLeast(gap, m);
    } else if gap < 0 {
      TimesAtLeast(-gap, m);
    }
  }

  lemma {:induction false} TimesAtLeast(x: int, m: nat)
    requires x >= 1
    ensures x * m >= m && -x * m + m <= 0
  {
  }

  /** Numbers with the same remainder that are less than `m` apart are the same. */
  lemma {:induction false} SameRemainder(a: nat, b: nat, m: nat)
    requires m > 0 && a % m == b % m && a <= b < a + m
    ensures a == b
  {
    var gap: int := b / m - a / m;
    assert gap * m == b - a by {
      assert a == a / m * m + a % m && b == b / m * m + b % m;
    }
    if gap > 0 {
      TimesAtLeast(gap, m);
    } else if gap < 0 {
      TimesAtLeast(-gap, m);
    }
  }
}
