/**
 * `_sim_pearson`: the Pearson correlation of two entities' ratings over
 * the items both have rated, in exact real arithmetic.
 *
 * The square root is a parameter of the model. A lemma that needs to know
 * something about it requires one of two predicates: `IsRoot(sqrt)`, the
 * facts about `math.sqrt` that the zero-denominator rule depends on, or
 * the stronger `IsExactRoot(sqrt)` of PearsonProperties, a root that
 * squares back to its argument.
 */
module PearsonSimilarity {
  import opened Common
  import Sums

  /**
   * The shared-item set `si`, with the lookups that fail. `prefs[p1]` is
   * read first; `prefs[p2]` is read once per item of `prefs[p1]`, so it is
   * never read when `prefs[p1]` is empty.
   */
  function SharedItems(prefs: Prefs, p1: string, p2: string): (r: Result<set<string>>)
    ensures r.Err? <==> p1 !in prefs || (prefs[p1] != map[] && p2 !in prefs)
    ensures r.Err? ==> r.error == NotFound(if p1 !in prefs then p1 else p2)
    ensures r.Ok? ==> forall item ::
      item in r.value <==> item in prefs[p1] && p2 in prefs && item in prefs[p2]
  {
    if p1 !in prefs then Err(NotFound(p1))
    else if prefs[p1] == map[] then Ok({})
    else if p2 !in prefs then Err(NotFound(p2))
    else Ok(prefs[p1].Keys * prefs[p2].Keys)
  }

  /**
   * The loop that fills `si`: every item of `prefs[p1]` that `prefs[p2]`
   * also rates is added. Items are visited in an unspecified order, as
   * Python visits a dict.
   */
  method CollectShared(prefs: Prefs, p1: string, p2: string) returns (r: Result<set<string>>)
    ensures r == SharedItems(prefs, p1, p2)
  {
    if p1 !in prefs {
      return Err(NotFound(p1));
    }
    var mine := prefs[p1];
    var si: set<string> := {};
    var todo := mine.Keys;
    while todo != {}
      invariant todo <= mine.Keys
      invariant todo != mine.Keys ==> p2 in prefs
      invariant p2 in prefs ==> si == (mine.Keys - todo) * prefs[p2].Keys
      invariant p2 !in prefs ==> si == {}
      decreases |todo|
    {
      var item :| item in todo;
      if p2 !in prefs {
        return Err(NotFound(p2));
      }
      if item in prefs[p2] {
        si := si + {item};
      }
      todo := todo - {item};
    }
    if mine == map[] {
      return Ok({});
    }
    assert mine.Keys != {} && p2 in prefs;
    assert si == mine.Keys * prefs[p2].Keys;
    return Ok(si);
  }

  /** The ratings an entity gave to the shared items. */
  function Column(ratings: Ratings, si: set<string>): (c: map<string, real>)
    requires si <= ratings.Keys
    ensures c.Keys == si && forall item :: item in si ==> c[item] == ratings[item]
  {
    map item | item in si :: ratings[item]
  }

  /** `prefs[p1][it] * prefs[p2][it]` for every shared item. */
  function Products(r1: Ratings, r2: Ratings, si: set<string>): (c: map<string, real>)
    requires si <= r1.Keys && si <= r2.Keys
    ensures c.Keys == si
  {
    map item | item in si :: r1[item] * r2[item]
  }

  /** The five sums `sum1`, `sum2`, `sum1_sq`, `sum2_sq` and `p_sum`, and `n`. */
  datatype Moments = Moments(n: nat, sum1: real, sum2: real, sum1Sq: real, sum2Sq: real, pSum: real)

  function MomentsOf(r1: Ratings, r2: Ratings, si: set<string>): (m: Moments)
    requires si <= r1.Keys && si <= r2.Keys
    ensures m.n == |si|
  {
    var c1 := Column(r1, si);
    var c2 := Column(r2, si);
    Moments(|si|, Sums.Sum(c1), Sums.Sum(c2),
            Sums.Sum(Sums.Squares(c1)), Sums.Sum(Sums.Squares(c2)),
            Sums.Sum(Products(r1, r2, si)))
  }

  /** `num = p_sum - (sum1 * sum2 / n)`. */
  function Numerator(m: Moments): real
    requires m.n > 0
  {
    m.pSum - m.sum1 * m.sum2 / m.n as real
  }

  /** `sum_sq - pow(sum, 2) / n`, one factor under the square root. */
  function Variation(sumSq: real, sum: real, n: nat): real
    requires n > 0
  {
    sumSq - Sums.Square(sum) / n as real
  }

  /** The argument of `sqrt` in `den`. */
  function DenominatorArg(m: Moments): real
    requires m.n > 0
  {
    Variation(m.sum1Sq, m.sum1, m.n) * Variation(m.sum2Sq, m.sum2, m.n)
  }

  /** What the zero-denominator rule needs of `sqrt`: a non-negative root that is zero only at zero. */
  ghost predicate IsRoot(sqrt: real -> real)
  {
    forall x :: x >= 0.0 ==> sqrt(x) >= 0.0 && (sqrt(x) == 0.0 <==> x == 0.0)
  }

  /**
   * The value of `_sim_pearson(prefs, p1, p2)`, or the key whose lookup
   * raises.
   */
  function Pearson(prefs: Prefs, p1: string, p2: string, sqrt: real -> real): (r: Result<real>)
    ensures r.Err? <==> SharedItems(prefs, p1, p2).Err?
    ensures r.Err? ==> r.error == SharedItems(prefs, p1, p2).error
  {
    match SharedItems(prefs, p1, p2)
    case Err(e) => Err(e)
    case Ok(si) =>
      if |si| == 0 then Ok(0.0)
      else
        var m := MomentsOf(prefs[p1], prefs[p2], si);
        var den := sqrt(DenominatorArg(m));
        if den == 0.0 then Ok(0.0)
        else Ok(Numerator(m) / den)
  }

  /** `_sim_pearson` as the code runs it: the loop builds `si`, the rest is arithmetic. */
  method SimPearson(prefs: Prefs, p1: string, p2: string, sqrt: real -> real) returns (r: Result<real>)
    ensures r == Pearson(prefs, p1, p2, sqrt)
  {
    var shared := CollectShared(prefs, p1, p2);
    if shared.Err? {
      return Err(shared.error);
    }
    var si := shared.value;
    var n := |si|;
    if n == 0 {
      return Ok(0.0);
    }
    var m := MomentsOf(prefs[p1], prefs[p2], si);
    var num := Numerator(m);
    var den := sqrt(DenominatorArg(m));
    if den == 0.0 {
      return Ok(0.0);
    }
    return Ok(num / den);
  }
}
