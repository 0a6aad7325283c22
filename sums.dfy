/**
 * Sums over the values of a finite map, the exact-arithmetic counterpart of
 * Python's `sum([... for it in si])`. The map is added up in increasing key
 * order so that the sum is a (compilable) function; SumSplit shows that the
 * order does not matter.
 *
 * Products are written through `Square` and `Mul` rather than `*` in the
 * statements below: the solver relates two applications of a named
 * function by congruence, which it does not reliably do for two products.
 */
module Sums {
  import StringOrder

  function Sum(v: map<string, real>): real
    decreases |v.Keys|
  {
    if v.Keys == {} then 0.0
    else
      var k := StringOrder.MinOf(v.Keys);
      v[k] + Sum(v - {k})
  }

  /** The sum does not depend on which entry is added first. */
  lemma {:induction false} SumSplit(v: map<string, real>, x: string)
    requires x in v
    ensures Sum(v) == v[x] + Sum(v - {x})
    decreases |v.Keys|
  {
    var k := StringOrder.MinOf(v.Keys);
    if x != k {
      var w := v - {k};
      SumSplit(w, x);
      var u := v - {x};
      assert k in u.Keys;
      StringOrder.MinOfUnique(u.Keys, k);
      assert u - {k} == w - {x};
    }
  }

  /**
   * A sum of non-negative values is non-negative, and it is zero exactly
   * when every value is zero.
   */
  lemma {:induction false} SumNonNegative(v: map<string, real>)
    requires forall k :: k in v ==> v[k] >= 0.0
    ensures Sum(v) >= 0.0
    ensures Sum(v) == 0.0 <==> forall k :: k in v ==> v[k] == 0.0
    decreases |v.Keys|
  {
    if v.Keys != {} {
      var m := StringOrder.MinOf(v.Keys);
      var w := v - {m};
      SumNonNegative(w);
      assert Sum(v) == v[m] + Sum(w);
      if Sum(v) == 0.0 {
        forall k | k in v
          ensures v[k] == 0.0
        {
          if k != m {
            assert k in w;
          }
        }
      }
    }
  }

  /** Python's `pow(x, 2)`. */
  function Square(x: real): real
  {
    x * x
  }

  function Mul(a: real, b: real): real
  {
    a * b
  }

  lemma SquareFacts(d: real)
    ensures Square(d) >= 0.0
    ensures d != 0.0 || Square(d) == 0.0
  {
  }

  /** Squaring is strictly increasing on the non-negative reals. */
  lemma SquareMonotone(a: real, b: real)
    requires 0.0 <= a < b
    ensures Square(a) < Square(b)
  {
    assert Square(b) - Square(a) == Mul(b - a, b + a);
  }

  lemma SquarePositive(d: real)
    requires d != 0.0
    ensures Square(d) > 0.0
  {
    if d > 0.0 {
      SquareMonotone(0.0, d);
    } else {
      assert Square(d) == Square(-d);
      SquareMonotone(0.0, -d);
    }
  }

  /** Two non-negative reals with the same square are equal. */
  lemma SquareInjective(a: real, b: real)
    requires a >= 0.0 && b >= 0.0 && Square(a) == Square(b)
    ensures a == b
  {
    if a < b {
      SquareMonotone(a, b);
    } else if b < a {
      SquareMonotone(b, a);
    }
  }

  /** Entry-wise squares, `pow(x, 2)` for every value. */
  function Squares(v: map<string, real>): (s: map<string, real>)
    ensures s.Keys == v.Keys
  {
    map k | k in v :: Square(v[k])
  }

  /** Squared distance of every value from `y`. */
  function Deviations(v: map<string, real>, y: real): (d: map<string, real>)
    ensures d.Keys == v.Keys
  {
    map k | k in v :: Square(y - v[k])
  }

  /** All values of the map are the same (no variance). */
  predicate AllEqual(v: map<string, real>)
  {
    forall a, b :: a in v && b in v ==> v[a] == v[b]
  }

  /**
   * n * (sum of squares) - (sum)^2: n^2 times the population variance of
   * the values, and n times Pearson's `sum_sq - pow(sum, 2) / n`.
   */
  function Spread(v: map<string, real>): real
  {
    Mul(|v.Keys| as real, Sum(Squares(v))) - Square(Sum(v))
  }

  lemma DeviationsValues(v: map<string, real>, y: real)
    ensures forall k :: k in v ==> Deviations(v, y)[k] >= 0.0
    ensures forall k :: k in v && v[k] == y ==> Deviations(v, y)[k] == 0.0
  {
    forall k | k in v
      ensures Deviations(v, y)[k] >= 0.0
      ensures v[k] == y ==> Deviations(v, y)[k] == 0.0
    {
      SquareFacts(y - v[k]);
    }
  }

  lemma SquaresRemove(v: map<string, real>, x: string)
    ensures Squares(v - {x}) == Squares(v) - {x}
  {
    var sq := Squares(v) - {x};
    assert sq.Keys == Squares(v - {x}).Keys;
  }

  lemma DeviationsRemove(v: map<string, real>, x: string, y: real)
    ensures Deviations(v - {x}, y) == Deviations(v, y) - {x}
  {
    var dv := Deviations(v, y) - {x};
    assert dv.Keys == Deviations(v - {x}, y).Keys;
  }

  /** Splitting one entry off the three sums a spread is made of. */
  lemma RemoveKey(v: map<string, real>, x: string, y: real)
    requires x in v
    ensures Sum(v) == v[x] + Sum(v - {x})
    ensures Sum(Squares(v)) == Square(v[x]) + Sum(Squares(v - {x}))
    ensures Sum(Deviations(v, y)) == Square(y - v[x]) + Sum(Deviations(v - {x}, y))
    ensures |v.Keys| == |(v - {x}).Keys| + 1
  {
    assert (v - {x}).Keys == v.Keys - {x};
    SquaresRemove(v, x);
    DeviationsRemove(v, x, y);
    SumSplit(v, x);
    SumSplit(Squares(v), x);
    SumSplit(Deviations(v, y), x);
  }

  lemma DeviationStep(t: real, e: real, t0: real, n: real, k: real, s: real, a: real,
                      q: real, b: real, x: real, y: real)
    requires t == e + t0 && e == Square(y - x) && n == k + 1.0
    requires s == x + a && q == Square(x) + b
    requires t0 == Mul(k, Square(y)) - 2.0 * Mul(y, a) + b
    ensures t == Mul(n, Square(y)) - 2.0 * Mul(y, s) + q
  {
  }

  /** The sum of squared distances from `y`, expanded. */
  predicate DeviationsExpanded(v: map<string, real>, y: real)
  {
    Sum(Deviations(v, y)) == Mul(|v.Keys| as real, Square(y)) - 2.0 * Mul(y, Sum(v)) + Sum(Squares(v))
  }

  lemma DeviationsAdd(v: map<string, real>, x: string, y: real)
    requires x in v && DeviationsExpanded(v - {x}, y)
    ensures DeviationsExpanded(v, y)
  {
    var w := v - {x};
    RemoveKey(v, x, y);
    DeviationStep(Sum(Deviations(v, y)), Square(y - v[x]), Sum(Deviations(w, y)),
                  |v.Keys| as real, |w.Keys| as real, Sum(v), Sum(w),
                  Sum(Squares(v)), Sum(Squares(w)), v[x], y);
  }

  /** The squared distances from `y` add up to n y^2 - 2 y (sum) + (sum of squares). */
  lemma {:induction false} SumDeviations(v: map<string, real>, y: real)
    ensures DeviationsExpanded(v, y)
    decreases |v.Keys|
  {
    if v.Keys != {} {
      var x :| x in v;
      SumDeviations(v - {x}, y);
      DeviationsAdd(v, x, y);
    }
  }

  lemma SpreadStep(n: real, s: real, q: real, k: real, a: real, b: real, y: real, t: real)
    requires n == k + 1.0 && s == a + y && q == b + Square(y)
    requires t == Mul(k, Square(y)) - 2.0 * Mul(y, a) + b
    ensures Mul(n, q) - Square(s) == (Mul(k, b) - Square(a)) + t
  {
  }

  /**
   * Taking the value `v[x]` out of the values: the spread of the rest,
   * plus the squared distances of `v[x]` from each of the rest.
   */
  lemma SpreadSplit(v: map<string, real>, x: string)
    requires x in v
    ensures Spread(v) == Spread(v - {x}) + Sum(Deviations(v - {x}, v[x]))
  {
    var w := v - {x};
    var y := v[x];
    SumDeviations(w, y);
    RemoveKey(v, x, y);
    SpreadStep(|v.Keys| as real, Sum(v), Sum(Squares(v)), |w.Keys| as real,
               Sum(w), Sum(Squares(w)), y, Sum(Deviations(w, y)));
  }

  /**
   * The spread is never negative, and it is zero when all values are
   * equal: the variance terms under Pearson's square root are never
   * negative in exact arithmetic, and they vanish for constant ratings.
   */
  lemma {:induction false} SpreadProperties(v: map<string, real>)
    ensures Spread(v) >= 0.0
    ensures AllEqual(v) ==> Spread(v) == 0.0
    decreases |v.Keys|
  {
    if v.Keys != {} {
      var x := StringOrder.MinOf(v.Keys);
      var w := v - {x};
      var y := v[x];
      SpreadProperties(w);
      SpreadSplit(v, x);
      DeviationsValues(w, y);
      SumNonNegative(Deviations(w, y));
      if AllEqual(v) {
        assert AllEqual(w);
      }
    }
  }

  /**
   * The converse: a zero spread means every value is the same. Both parts
   * of the split are non-negative, so the squared distances of one value
   * from all the others add up to zero, and each of them is zero.
   */
  lemma SpreadZero(v: map<string, real>)
    requires Spread(v) == 0.0
    ensures AllEqual(v)
  {
    if v.Keys != {} {
      var x :| x in v;
      var w := v - {x};
      var y := v[x];
      SpreadSplit(v, x);
      SpreadProperties(w);
      DeviationsValues(w, y);
      SumNonNegative(Deviations(w, y));
      forall k | k in w
        ensures v[k] == y
      {
        assert Deviations(w, y)[k] == Square(y - w[k]) == 0.0;
        if y - w[k] != 0.0 {
          SquarePositive(y - w[k]);
        }
      }
      forall a, b | a in v && b in v
        ensures v[a] == v[b]
      {
        if a != x {
          assert a in w;
        }
        if b != x {
          assert b in w;
        }
      }
    }
  }
}
