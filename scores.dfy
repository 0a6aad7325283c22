/**
 * The `(score, other)` tuples that `top_matches` sorts, Python's ordering
 * of them, and `round(x, 2)`.
 */
module Scores {
  import StringOrder

  /** One `(round(similarity, 2), other)` pair. */
  datatype Match = Match(score: real, name: string)

  /** Python's `<` on `(score, name)` tuples: by score, then by name. */
  predicate Below(a: Match, b: Match)
  {
    a.score < b.score || (a.score == b.score && StringOrder.Less(a.name, b.name))
  }

  lemma BelowIrreflexive(a: Match)
    ensures !Below(a, a)
  {
    StringOrder.Irreflexive(a.name);
  }

  lemma BelowAsymmetric(a: Match, b: Match)
    requires Below(a, b)
    ensures !Below(b, a)
  {
    if a.score == b.score {
      StringOrder.Asymmetric(a.name, b.name);
    }
  }

  lemma BelowTransitive(a: Match, b: Match, c: Match)
    requires Below(a, b) && Below(b, c)
    ensures Below(a, c)
  {
    if a.score == b.score && b.score == c.score {
      StringOrder.Transitive(a.name, b.name, c.name);
    }
  }

  /** Two different tuples are always ordered one way or the other. */
  lemma BelowTotal(a: Match, b: Match)
    requires a != b
    ensures Below(a, b) || Below(b, a)
  {
    if a.score == b.score {
      StringOrder.Total(a.name, b.name);
    }
  }

  /**
   * `round(x, 2)` in exact arithmetic: the integer number of hundredths
   * nearest to `x`, ties going to the even neighbour as Python's `round`
   * does.
   */
  function Hundredths(x: real): (k: int)
    ensures -0.5 <= k as real - 100.0 * x <= 0.5
    ensures k as real - 100.0 * x == 0.5 || k as real - 100.0 * x == -0.5 ==> k % 2 == 0
  {
    var y := 100.0 * x;
    var f := y.Floor;
    var frac := y - f as real;
    if frac < 0.5 then f
    else if frac > 0.5 then f + 1
    else if f % 2 == 0 then f
    else f + 1
  }

  /** The nearest hundredth, ties to even, is the only such integer. */
  lemma HundredthsUnique(x: real, k: int)
    requires -0.5 <= k as real - 100.0 * x <= 0.5
    requires k as real - 100.0 * x == 0.5 || k as real - 100.0 * x == -0.5 ==> k % 2 == 0
    ensures k == Hundredths(x)
  {
  }

  function Round2(x: real): (r: real)
    ensures -0.005 <= r - x <= 0.005
  {
    Hundredths(x) as real / 100.0
  }

  lemma HundredthsMonotone(x: real, y: real)
    requires x <= y
    ensures Hundredths(x) <= Hundredths(y)
  {
    var kx := Hundredths(x);
    var ky := Hundredths(y);
    assert kx as real <= 100.0 * x + 0.5 && 100.0 * y - 0.5 <= ky as real;
    assert kx <= ky + 1;
  }

  /** Rounding never reverses the order of two scores. */
  lemma Round2Monotone(x: real, y: real)
    requires x <= y
    ensures Round2(x) <= Round2(y)
  {
    HundredthsMonotone(x, y);
  }

  /** A rounded score is already a whole number of hundredths. */
  lemma Round2Idempotent(x: real)
    ensures Round2(Round2(x)) == Round2(x)
  {
    var k := Hundredths(x);
    assert 100.0 * Round2(x) == k as real;
    HundredthsUnique(Round2(x), k);
  }
}
