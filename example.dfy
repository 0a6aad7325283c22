/**
 * A worked dataset of three entities rating two items, with the
 * similarities and the ranking the model gives for it under an exact root.
 */
module Example {
  import opened Common
  import Sums
  import opened Scores
  import opened PearsonSimilarity
  import opened PearsonProperties
  import opened Ranking
  import opened RankingProperties

  /** A and B rate x and y alike; C rates x lower and y higher than A does. */
  const Dataset: Prefs := map[
    "A" := map["x" := 3.0, "y" := 4.0],
    "B" := map["x" := 3.0, "y" := 4.0],
    "C" := map["x" := 1.0, "y" := 5.0]]

  /** The sum of a map with exactly two keys. */
  lemma SumOfTwo(v: map<string, real>, a: string, b: string)
    requires a != b && v.Keys == {a, b}
    ensures Sums.Sum(v) == v[a] + v[b]
  {
    Sums.SumSplit(v, a);
    var w := v - {a};
    Sums.SumSplit(w, b);
    assert w - {b} == map[];
  }

  /** An entity's sum and sum of squares over the items `x` and `y`. */
  lemma ColumnOfTwo(r: Ratings)
    requires r.Keys == {"x", "y"}
    ensures Column(r, {"x", "y"}) == r
    ensures Sums.Sum(r) == r["x"] + r["y"]
    ensures Sums.Sum(Sums.Squares(r)) == Sums.Square(r["x"]) + Sums.Square(r["y"])
  {
    SumOfTwo(r, "x", "y");
    SumOfTwo(Sums.Squares(r), "x", "y");
  }

  /** An exact root of `num * num` is `num`, so `num / sqrt(num * num)` is 1. */
  lemma ExactRatio(sqrt: real -> real, num: real)
    requires IsExactRoot(sqrt) && num > 0.0
    ensures sqrt(Sums.Square(num)) == num && num / sqrt(Sums.Square(num)) == 1.0
  {
    RootOfSquare(sqrt, num);
  }

  /** The sums for A against B. */
  lemma MomentsAB()
    ensures MomentsOf(Dataset["A"], Dataset["B"], {"x", "y"}) == Moments(2, 7.0, 7.0, 25.0, 25.0, 25.0)
  {
    var a, b := Dataset["A"], Dataset["B"];
    ColumnOfTwo(a);
    ColumnOfTwo(b);
    SumOfTwo(Products(a, b, {"x", "y"}), "x", "y");
  }

  /** The sums for A against C. */
  lemma MomentsAC()
    ensures MomentsOf(Dataset["A"], Dataset["C"], {"x", "y"}) == Moments(2, 7.0, 6.0, 25.0, 26.0, 23.0)
  {
    var a, c := Dataset["A"], Dataset["C"];
    ColumnOfTwo(a);
    ColumnOfTwo(c);
    SumOfTwo(Products(a, c, {"x", "y"}), "x", "y");
  }

  /** `num` and the argument of `sqrt` for both pairs: each argument is the square of `num`. */
  lemma ExampleTerms()
    ensures Numerator(Moments(2, 7.0, 7.0, 25.0, 25.0, 25.0)) == 0.5
    ensures DenominatorArg(Moments(2, 7.0, 7.0, 25.0, 25.0, 25.0)) == Sums.Square(0.5)
    ensures Numerator(Moments(2, 7.0, 6.0, 25.0, 26.0, 23.0)) == 2.0
    ensures DenominatorArg(Moments(2, 7.0, 6.0, 25.0, 26.0, 23.0)) == Sums.Square(2.0)
  {
  }

  /**
   * A perfect correlation: when the argument of `sqrt` is the square of a
   * positive numerator, an exact root makes the similarity 1.
   */
  lemma PerfectCorrelation(prefs: Prefs, p1: string, p2: string, sqrt: real -> real, m: Moments, num: real)
    requires IsExactRoot(sqrt)
    requires SharedItems(prefs, p1, p2).Ok? && SharedItems(prefs, p1, p2).value != {}
    requires MomentsOf(prefs[p1], prefs[p2], SharedItems(prefs, p1, p2).value) == m
    requires num > 0.0 && Numerator(m) == num && DenominatorArg(m) == Sums.Square(num)
    ensures Pearson(prefs, p1, p2, sqrt) == Ok(1.0)
  {
    ExactRootIsRoot(sqrt);
    Sums.SquarePositive(num);
    ZeroDenominator(prefs, p1, p2, sqrt);
    ExactRatio(sqrt, num);
  }

  lemma ExampleShared()
    ensures SharedItems(Dataset, "A", "B") == Ok({"x", "y"})
    ensures SharedItems(Dataset, "A", "C") == Ok({"x", "y"})
  {
    assert "x" in Dataset["A"] && Dataset["A"].Keys == {"x", "y"};
    assert "B" in Dataset && Dataset["B"].Keys == {"x", "y"};
    assert "C" in Dataset && Dataset["C"].Keys == {"x", "y"};
    var both: set<string> := {"x", "y"};
    assert both * both == both;
  }

  /**
   * Both B and C correlate perfectly with A: with two shared items, C's
   * ratings move in the same direction as A's (from x to y both rise),
   * so the similarity of A and C is +1.
   */
  lemma ExampleSimilarities(sqrt: real -> real)
    requires IsExactRoot(sqrt)
    ensures Pearson(Dataset, "A", "B", sqrt) == Ok(1.0)
    ensures Pearson(Dataset, "A", "C", sqrt) == Ok(1.0)
  {
    ExampleShared();
    MomentsAB();
    MomentsAC();
    ExampleTerms();
    var mb := Moments(2, 7.0, 7.0, 25.0, 25.0, 25.0);
    var mc := Moments(2, 7.0, 6.0, 25.0, 26.0, 23.0);
    PerfectCorrelation(Dataset, "A", "B", sqrt, mb, 0.5);
    PerfectCorrelation(Dataset, "A", "C", sqrt, mc, 2.0);
  }

  lemma RoundOne()
    ensures Round2(1.0) == 1.0
  {
    HundredthsUnique(1.0, 100);
  }

  lemma ExampleOthers()
    ensures Others(Dataset, "A") == {"B", "C"}
  {
    assert Dataset.Keys == {"A", "B", "C"};
  }

  /**
   * With two other entities whose pairs are ordered, the ranking of
   * length 2 is the larger pair, then the smaller.
   */
  lemma TwoOthersRanked(prefs: Prefs, person: string, sim: Similarity, b: string, c: string, vb: real, vc: real)
    requires Others(prefs, person) == {b, c} && b != c
    requires sim(prefs, person, b) == Ok(vb) && sim(prefs, person, c) == Ok(vc)
    requires Below(Match(Round2(vb), b), Match(Round2(vc), c))
    ensures Scored(prefs, person, sim)
    ensures Ranked(prefs, person, 2, sim, [Match(Round2(vc), c), Match(Round2(vb), b)])
  {
    var names: set<string> := {b, c};
    assert |names| == 2;
  }

  /**
   * `top_matches(Dataset, "A", 2)`: both scores round to 1.0, and the
   * tie is broken by descending name, so C comes before B.
   */
  lemma ExampleTopMatches(sqrt: real -> real, r: seq<Match>)
    requires IsExactRoot(sqrt) && Scored(Dataset, "A", PearsonOf(sqrt))
    requires Ranked(Dataset, "A", 2, PearsonOf(sqrt), r)
    ensures r == [Match(1.0, "C"), Match(1.0, "B")]
  {
    var sim := PearsonOf(sqrt);
    ExampleSimilarities(sqrt);
    assert sim(Dataset, "A", "B") == Ok(1.0) && sim(Dataset, "A", "C") == Ok(1.0);
    ExampleOthers();
    RoundOne();
    assert Below(Match(1.0, "B"), Match(1.0, "C"));
    TwoOthersRanked(Dataset, "A", sim, "B", "C", 1.0, 1.0);
    RankedUnique(Dataset, "A", 2, sim, r, [Match(1.0, "C"), Match(1.0, "B")]);
  }
}
