/**
 The arithmetic of `arc4random_uniform`: which 32-bit draws are rejected, and why what remains is uniform.
 */
module UniformDraw {
  import opened Division

  const TWO32: nat := 0x1_0000_0000

  type uint32 = x: int | 0 <= x < 0x1_0000_0000

  /** `(uint32_t)(-upper) % upper`: the unary minus wraps around. */
  function RejectBelow(upper: uint32): (min: uint32)
    requires upper >= 2
  {
    (TWO32 - upper) % TWO32 % upper
  }

  predicate Accepted(upper: uint32, r: uint32)
    requires upper >= 2
  {
    r >= RejectBelow(upper)
  }

  /** The wrapped expression is the remainder of two to the 32nd, which has no 32-bit representation itself. */
  lemma {:induction false} RejectBelowExact(upper: uint32)
    requires upper >= 2
    ensures RejectBelow(upper) == TWO32 % upper
    ensures (TWO32 - RejectBelow(upper)) % upper == 0
  {
    var q, r := (TWO32 - upper) / upper, (TWO32 - upper) % upper;
    assert TWO32 - upper == q * upper + r;
    assert TWO32 == (q + 1) * upper + r;
    DivModUnique(TWO32, upper, q + 1, r);
    DivModUnique(TWO32 - r, upper, q + 1, 0);
  }

  /** Fewer than half of all draws are rejected. */
  lemma {:induction false} FewRejected(upper: uint32)
    requires upper >= 2
    ensures 2 * RejectBelow(upper) < TWO32
  {
    RejectBelowExact(upper);
    if 2 * upper > TWO32 {
      DivModUnique(TWO32, upper, 1, TWO32 - upper);
    }
  }

  predicate Leaves(r: int, m: nat, x: nat)
    requires m > 0
  {
    r % m == x
  }

  function Draws(lo: nat, hi: nat, m: nat, x: nat): set<int>
    requires m > 0
  {
    set r: int | lo <= r < hi && Leaves(r, m, x)
  }

  lemma {:induction false} WindowHit(a: nat, m: nat, x: nat) returns (r: nat)
    requires x < m
    ensures a <= r < a + m && r % m == x
  {
    var q, s := a / m, a % m;
    assert a == q * m + s;
    if s <= x {
      r := q * m + x;
      DivModUnique(r, m, q, x);
    } else {
      r := (q + 1) * m + x;
      assert (q + 1) * m == q * m + m;
      DivModUnique(r, m, q + 1, x);
    }
  }

  /** Among any `m` consecutive numbers exactly one leaves the remainder `x`. */
  lemma {:induction false} WindowHasOne(a: nat, m: nat, x: nat) returns (r: nat)
    requires x < m
    ensures Draws(a, a + m, m, x) == {r}
  {
    r := WindowHit(a, m, x);
    assert Leaves(r, m, x);
    forall y: int | a <= y < a + m && Leaves(y, m, x)
      ensures y == r
    {
      if y <= r {
        SameRemainder(y, r, m);
      } else {
        SameRemainder(r, y, m);
      }
    }
  }

  lemma {:induction false} DrawsSplit(a: nat, b: nat, c: nat, m: nat, x: nat)
    requires m > 0 && a <= b <= c
    ensures Draws(a, c, m, x) == Draws(a, b, m, x) + Draws(b, c, m, x)
    ensures |Draws(a, c, m, x)| == |Draws(a, b, m, x)| + |Draws(b, c, m, x)|
  {
    assert Draws(a, b, m, x) !! Draws(b, c, m, x);
    assert Draws(a, c, m, x) == Draws(a, b, m, x) + Draws(b, c, m, x);
  }

  lemma {:induction false} WindowsHaveOneEach(a: nat, m: nat, x: nat, k: nat)
    requires x < m
    ensures |Draws(a, a + k * m, m, x)| == k
    decreases k
  {
    if k == 0 {
      assert Draws(a, a, m, x) == {};
    } else {
      var b := a + (k - 1) * m;
      assert a + k * m == b + m;
      WindowsHaveOneEach(a, m, x, k - 1);
      var r := WindowHasOne(b, m, x);
      DrawsSplit(a, b, b + m, m, x);
    }
  }

  /** Exactly uniform: every result below `upper` comes from the same number of accepted draws. */
  lemma {:induction false} ExactlyUniform(upper: uint32, x: uint32)
    requires 2 <= upper && x < upper
    ensures |set r: uint32 | Accepted(upper, r) && Leaves(r, upper, x)| == (TWO32 - RejectBelow(upper)) / upper
  {
    var min := RejectBelow(upper);
    var k := (TWO32 - min) / upper;
    RejectBelowExact(upper);
    assert TWO32 - min == k * upper;
    WindowsHaveOneEach(min, upper, x, k);
    assert (set r: uint32 | Accepted(upper, r) && Leaves(r, upper, x)) == Draws(min, TWO32, upper, x);
  }
}
