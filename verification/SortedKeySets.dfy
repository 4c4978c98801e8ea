/** Python's `sorted` on a set of integer keys. */
module SortedKeySets {

  function LeastKey(keys: set<int>): (least: int)
    requires keys != {}
    ensures IsLeast(keys, least)
  {
    LeastExists(keys);
    assert exists least :: IsLeast(keys, least);
    var least: int :| least in keys && IsLeast(keys, least);
    least
  }

  /** `sorted(keys)` */
  function SortedKeys(keys: set<int>): (r: seq<int>)
    ensures forall i, j | 0 <= i < j < |r| :: r[i] < r[j]
    ensures forall k :: k in r <==> k in keys
    decreases |keys|
  {
    if keys == {} then [] else [LeastKey(keys)] + SortedKeys(keys - {LeastKey(keys)})
  }

  predicate IsLeast(keys: set<int>, least: int) {
    least in keys && forall k | k in keys :: least <= k
  }

  lemma {:induction false} SomeKey(keys: set<int>)
    ensures keys == {} || exists x :: x in keys
  {
    if forall x :: x !in keys {
      assert keys == {};
    }
  }

  lemma {:induction false} LeastExists(keys: set<int>)
    requires keys != {}
    ensures exists least :: IsLeast(keys, least)
    decreases |keys|
  {
    SomeKey(keys);
    var x :| x in keys;
    if keys == {x} {
      assert IsLeast(keys, x);
    } else {
      LeastExists(keys - {x});
      var y :| IsLeast(keys - {x}, y);
      assert forall k | k in keys :: k == x || k in keys - {x};
      assert IsLeast(keys, if x <= y then x else y);
    }
  }

  predicate Within(lo: int, hi: int, k: int) {
    lo <= k < hi
  }

  function Range(lo: int, hi: int): set<int> {
    set k: int | lo <= k < hi && Within(lo, hi, k)
  }

  lemma {:induction false} InRange(lo: int, hi: int, k: int)
    ensures k in Range(lo, hi) <==> lo <= k < hi
  {
    assert Within(lo, hi, k) <==> lo <= k < hi;
  }

  lemma {:induction false} RangeLeast(lo: int, hi: int)
    requires lo < hi
    ensures Range(lo, hi) != {} && LeastKey(Range(lo, hi)) == lo
  {
    hide Range;
    var keys := Range(lo, hi);
    InRange(lo, hi, lo);
    assert lo in keys;
    InRange(lo, hi, LeastKey(keys));
  }

  lemma {:induction false} RangeRest(lo: int, hi: int)
    requires lo < hi
    ensures Range(lo, hi) - {lo} == Range(lo + 1, hi)
  {
    hide Range;
    forall k: int
      ensures k in Range(lo, hi) - {lo} <==> k in Range(lo + 1, hi)
    {
      InRange(lo, hi, k);
      InRange(lo + 1, hi, k);
    }
  }

  lemma {:induction false} SortedStep(keys: set<int>, least: int)
    requires keys != {} && LeastKey(keys) == least
    ensures SortedKeys(keys) == [least] + SortedKeys(keys - {least})
  {
    hide LeastKey, IsLeast;
  }

  lemma {:induction false} RangeEmpty(lo: int)
    ensures Range(lo, lo) == {} && SortedKeys(Range(lo, lo)) == []
  {
    hide LeastKey, IsLeast;
    assert Range(lo, lo) == {};
  }

  function UpFrom(lo: int, n: nat): seq<int> {
    seq(n, i requires 0 <= i < n => lo + i)
  }

  lemma {:induction false} UpFromEmpty(lo: int)
    ensures UpFrom(lo, 0) == []
  {
  }

  lemma {:induction false} UpFromStep(lo: int, n: nat)
    requires n > 0
    ensures UpFrom(lo, n) == [lo] + UpFrom(lo + 1, n - 1)
  {
  }

  /** The keys `lo`, `lo + 1`, ... sort to themselves. */
  lemma {:induction false} SortedRange(lo: int, hi: int)
    requires lo <= hi
    ensures SortedKeys(Range(lo, hi)) == UpFrom(lo, hi - lo)
    decreases hi - lo
  {
    hide SortedKeys, LeastKey, Range, UpFrom;
    if lo == hi {
      RangeEmpty(lo);
      UpFromEmpty(lo);
    } else {
      RangeLeast(lo, hi);
      RangeRest(lo, hi);
      SortedStep(Range(lo, hi), lo);
      SortedRange(lo + 1, hi);
      UpFromStep(lo, hi - lo);
    }
  }
}
