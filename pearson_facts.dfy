/** What `_sim_pearson` guarantees, stated over the model in PearsonSimilarity. */
module PearsonProperties {
  import opened Common
  import Sums
  import opened PearsonSimilarity

  /**
   * No shared items: the similarity is exactly 0, whether `prefs[p2]` was
   * never read (empty `prefs[p1]`) or read and disjoint from `prefs[p1]`.
   */
  lemma NoOverlapIsZero(prefs: Prefs, p1: string, p2: string, sqrt: real -> real)
    requires p1 in prefs
    requires forall item :: item in prefs[p1] ==> p2 in prefs && item !in prefs[p2]
    ensures Pearson(prefs, p1, p2, sqrt) == Ok(0.0)
  {
    var shared := SharedItems(prefs, p1, p2);
    assert shared.Ok?;
    assert shared.value == {};
  }

  /** `sum_sq - pow(sum, 2) / n` is the spread divided by `n`. */
  lemma VariationOfSpread(q: real, s: real, n: real, sp: real)
    requires n > 0.0 && sp == Sums.Mul(n, q) - Sums.Square(s)
    ensures q - Sums.Square(s) / n == sp / n
  {
  }

  lemma DivideNonNegative(sp: real, n: real)
    requires n > 0.0 && sp >= 0.0
    ensures sp / n >= 0.0
    ensures sp / n == 0.0 <==> sp == 0.0
  {
  }

  /**
   * Each factor under the square root is never negative, and it is zero
   * exactly when the entity's shared ratings are all equal.
   */
  lemma {:induction false} VariationFacts(c: map<string, real>)
    requires c.Keys != {}
    ensures Variation(Sums.Sum(Sums.Squares(c)), Sums.Sum(c), |c.Keys|) >= 0.0
    ensures Variation(Sums.Sum(Sums.Squares(c)), Sums.Sum(c), |c.Keys|) == 0.0 <==> Sums.AllEqual(c)
  {
    Sums.SpreadProperties(c);
    var n := |c.Keys| as real;
    VariationOfSpread(Sums.Sum(Sums.Squares(c)), Sums.Sum(c), n, Sums.Spread(c));
    DivideNonNegative(Sums.Spread(c), n);
    if Sums.Spread(c) == 0.0 {
      Sums.SpreadZero(c);
    }
  }

  lemma ProductNonNegative(a: real, b: real)
    requires a >= 0.0 && b >= 0.0
    ensures a * b >= 0.0
    ensures a * b == 0.0 <==> a == 0.0 || b == 0.0
  {
    if a > 0.0 && b > 0.0 {
      assert a * b > 0.0;
    }
  }

  /**
   * In exact arithmetic the argument of `sqrt` is never negative (so
   * `math.sqrt` is never handed a negative number), and it is zero
   * exactly when one of the two entities rated all shared items alike.
   */
  lemma DenominatorArgFacts(r1: Ratings, r2: Ratings, si: set<string>)
    requires si != {} && si <= r1.Keys && si <= r2.Keys
    ensures DenominatorArg(MomentsOf(r1, r2, si)) >= 0.0
    ensures DenominatorArg(MomentsOf(r1, r2, si)) == 0.0 <==>
      Sums.AllEqual(Column(r1, si)) || Sums.AllEqual(Column(r2, si))
  {
    var c1 := Column(r1, si);
    var c2 := Column(r2, si);
    VariationFacts(c1);
    VariationFacts(c2);
    var m := MomentsOf(r1, r2, si);
    ProductNonNegative(Variation(m.sum1Sq, m.sum1, m.n), Variation(m.sum2Sq, m.sum2, m.n));
  }

  /**
   * The zero-denominator rule: with a genuine root, the similarity is 0
   * when the argument of `sqrt` is 0, and otherwise it is `num / den`
   * with a positive `den`, so the division never divides by zero.
   */
  lemma ZeroDenominator(prefs: Prefs, p1: string, p2: string, sqrt: real -> real)
    requires IsRoot(sqrt)
    requires SharedItems(prefs, p1, p2).Ok? && SharedItems(prefs, p1, p2).value != {}
    ensures var si := SharedItems(prefs, p1, p2).value;
      var m := MomentsOf(prefs[p1], prefs[p2], si);
      && (DenominatorArg(m) == 0.0 ==> Pearson(prefs, p1, p2, sqrt) == Ok(0.0))
      && (DenominatorArg(m) != 0.0 ==>
            sqrt(DenominatorArg(m)) > 0.0 &&
            Pearson(prefs, p1, p2, sqrt) == Ok(Numerator(m) / sqrt(DenominatorArg(m))))
  {
    var si := SharedItems(prefs, p1, p2).value;
    DenominatorArgFacts(prefs[p1], prefs[p2], si);
  }

  /**
   * Zero variance is a degenerate correlation, not an error: if either
   * entity gave every shared item the same rating (in particular when
   * only one item is shared), the similarity is 0.
   */
  lemma ConstantRatingsIsZero(prefs: Prefs, p1: string, p2: string, sqrt: real -> real)
    requires IsRoot(sqrt) && p1 in prefs && p2 in prefs
    requires var si := prefs[p1].Keys * prefs[p2].Keys;
      Sums.AllEqual(Column(prefs[p1], si)) || Sums.AllEqual(Column(prefs[p2], si))
    ensures Pearson(prefs, p1, p2, sqrt) == Ok(0.0)
  {
    var si := prefs[p1].Keys * prefs[p2].Keys;
    if si != {} {
      assert SharedItems(prefs, p1, p2).value == si;
      ZeroDenominator(prefs, p1, p2, sqrt);
      DenominatorArgFacts(prefs[p1], prefs[p2], si);
    } else {
      forall item | item in prefs[p1]
        ensures item !in prefs[p2]
      {
        assert item !in si;
      }
      NoOverlapIsZero(prefs, p1, p2, sqrt);
    }
  }

  /** A square root that is exact: the non-negative number whose square is `x`. */
  ghost predicate IsExactRoot(sqrt: real -> real)
  {
    forall x :: x >= 0.0 ==> sqrt(x) >= 0.0 && Sums.Square(sqrt(x)) == x
  }

  lemma ExactRootIsRoot(sqrt: real -> real)
    requires IsExactRoot(sqrt)
    ensures IsRoot(sqrt)
  {
    forall x | x >= 0.0
      ensures sqrt(x) == 0.0 <==> x == 0.0
    {
      if sqrt(x) != 0.0 {
        Sums.SquarePositive(sqrt(x));
      }
    }
  }

  lemma RootOfSquare(sqrt: real -> real, v: real)
    requires IsExactRoot(sqrt) && v >= 0.0
    ensures sqrt(Sums.Square(v)) == v
  {
    Sums.SquareFacts(v);
    Sums.SquareInjective(sqrt(Sums.Square(v)), v);
  }

  /** Compared with itself, an entity's five sums are its sum and its sum of squares. */
  lemma SelfMoments(r: Ratings)
    ensures MomentsOf(r, r, r.Keys) ==
      Moments(|r.Keys|, Sums.Sum(r), Sums.Sum(r), Sums.Sum(Sums.Squares(r)),
              Sums.Sum(Sums.Squares(r)), Sums.Sum(Sums.Squares(r)))
  {
    assert Column(r, r.Keys) == r;
    assert Products(r, r, r.Keys) == Sums.Squares(r);
  }

  /**
   * With `p_sum == sum1_sq` and equal columns, the numerator is the factor
   * under the root, the argument of `sqrt` is its square, and that factor
   * is zero exactly when the spread is.
   */
  lemma SelfTerms(n: nat, s: real, q: real, sp: real)
    requires n > 0 && sp == Sums.Mul(n as real, q) - Sums.Square(s)
    ensures Numerator(Moments(n, s, s, q, q, q)) == Variation(q, s, n)
    ensures DenominatorArg(Moments(n, s, s, q, q, q)) == Sums.Square(Variation(q, s, n))
    ensures Variation(q, s, n) == 0.0 <==> sp == 0.0
  {
    VariationOfSpread(q, s, n as real, sp);
  }

  /**
   * An entity compared with itself: with an exact root the similarity is
   * 1, unless its ratings have no spread, when the zero-denominator rule
   * gives 0.
   */
  lemma SelfSimilarity(prefs: Prefs, p: string, sqrt: real -> real)
    requires IsExactRoot(sqrt) && p in prefs
    ensures Pearson(prefs, p, p, sqrt) == Ok(if Sums.Spread(prefs[p]) == 0.0 then 0.0 else 1.0)
    ensures Sums.AllEqual(prefs[p]) ==> Pearson(prefs, p, p, sqrt) == Ok(0.0)
  {
    var r := prefs[p];
    Sums.SpreadProperties(r);
    if r == map[] {
      assert Sums.Squares(r) == map[];
    } else {
      assert SharedItems(prefs, p, p).value == r.Keys;
      SelfMoments(r);
      var n := |r.Keys|;
      var s := Sums.Sum(r);
      var q := Sums.Sum(Sums.Squares(r));
      var v := Variation(q, s, n);
      SelfTerms(n, s, q, Sums.Spread(r));
      ExactRootIsRoot(sqrt);
      ZeroDenominator(prefs, p, p, sqrt);
      if v != 0.0 {
        VariationFacts(r);
        Sums.SquarePositive(v);
        RootOfSquare(sqrt, v);
        SelfRatio(v, sqrt(Sums.Square(v)));
      }
    }
  }

  lemma SelfRatio(v: real, d: real)
    requires v != 0.0 && d == v
    ensures v / d == 1.0
  {
  }

  lemma MomentsSwap(r1: Ratings, r2: Ratings, si: set<string>)
    requires si <= r1.Keys && si <= r2.Keys
    ensures MomentsOf(r2, r1, si) == Swap(MomentsOf(r1, r2, si))
  {
    var p := Products(r1, r2, si);
    var q := Products(r2, r1, si);
    assert forall item :: item in si ==> p[item] == q[item];
    assert p == q;
  }

  /** The same five sums with the roles of the two entities exchanged. */
  function Swap(m: Moments): (w: Moments)
    ensures w.n == m.n && w.pSum == m.pSum
  {
    Moments(m.n, m.sum2, m.sum1, m.sum2Sq, m.sum1Sq, m.pSum)
  }

  lemma SwapKeepsTerms(m: Moments)
    requires m.n > 0
    ensures Numerator(Swap(m)) == Numerator(m)
    ensures DenominatorArg(Swap(m)) == DenominatorArg(m)
  {
  }

  /**
   * Swapping the two entities leaves the shared items, `p_sum`, the
   * numerator and the argument of `sqrt` unchanged, so the similarity is
   * symmetric whenever both entities are in the dataset.
   */
  lemma Symmetric(prefs: Prefs, p1: string, p2: string, sqrt: real -> real)
    requires p1 in prefs && p2 in prefs
    ensures Pearson(prefs, p1, p2, sqrt) == Pearson(prefs, p2, p1, sqrt)
  {
    var s12 := SharedItems(prefs, p1, p2);
    var s21 := SharedItems(prefs, p2, p1);
    assert s12.value == s21.value;
    var si := s12.value;
    if si != {} {
      MomentsSwap(prefs[p1], prefs[p2], si);
      SwapKeepsTerms(MomentsOf(prefs[p1], prefs[p2], si));
    }
  }
}
