/** What the ranking returned by `top_matches` guarantees. */
module RankingProperties {
  import opened Common
  import StringOrder
  import opened Scores
  import opened Ranking
  import PearsonSimilarity

  /**
   * `person` is never ranked against itself; scores never increase along
   * the list, and equal scores are ordered by descending name.
   */
  lemma RankedOrder(prefs: Prefs, person: string, n: nat, sim: Similarity, r: seq<Match>)
    requires Scored(prefs, person, sim) && Ranked(prefs, person, n, sim, r)
    ensures forall i :: 0 <= i < |r| ==> r[i].name in prefs && r[i].name != person
    ensures forall i, j :: 0 <= i < j < |r| ==> r[j].score <= r[i].score
    ensures forall i, j :: 0 <= i < j < |r| && r[i].score == r[j].score ==> StringOrder.Less(r[j].name, r[i].name)
  {
  }

  /** A ranking names each entity at most once. */
  lemma RankedDistinctNames(prefs: Prefs, person: string, n: nat, sim: Similarity, r: seq<Match>)
    requires Scored(prefs, person, sim) && Ranked(prefs, person, n, sim, r)
    ensures DistinctNames(r)
  {
    forall i, j | 0 <= i < j < |r|
      ensures r[i].name != r[j].name
    {
      BelowIrreflexive(r[i]);
      assert r[i] == Entry(prefs, person, sim, r[i].name);
      assert r[j] == Entry(prefs, person, sim, r[j].name);
    }
  }

  /** The names of the entities in a list of pairs. */
  function NamesOf(s: seq<Match>): (names: set<string>)
    ensures forall i :: 0 <= i < |s| ==> s[i].name in names
    ensures forall x :: x in names ==> exists i :: 0 <= i < |s| && s[i].name == x
  {
    set i | 0 <= i < |s| :: s[i].name
  }

  lemma {:induction false} NamesCount(s: seq<Match>)
    requires DistinctNames(s)
    ensures |NamesOf(s)| == |s|
  {
    if s != [] {
      var init := s[..|s| - 1];
      var last := s[|s| - 1];
      assert DistinctNames(init);
      NamesCount(init);
      assert NamesOf(s) == NamesOf(init) + {last.name};
      assert last.name !in NamesOf(init);
    }
  }

  /** A subset as large as the whole set is the whole set. */
  lemma {:induction false} SubsetSameSize(a: set<string>, b: set<string>)
    requires a <= b && |a| == |b|
    ensures a == b
    decreases |a|
  {
    if a != {} {
      var x :| x in a;
      SubsetSameSize(a - {x}, b - {x});
      assert a == (a - {x}) + {x} && b == (b - {x}) + {x};
    }
  }

  /**
   * With `n` at least the number of other entities, the slice keeps every
   * pair: each other entity appears in the ranking.
   */
  lemma RankedComplete(prefs: Prefs, person: string, n: nat, sim: Similarity, r: seq<Match>)
    requires Scored(prefs, person, sim) && Ranked(prefs, person, n, sim, r)
    requires n >= |Others(prefs, person)|
    ensures |r| == |Others(prefs, person)|
    ensures forall other :: other in Others(prefs, person) ==> Entry(prefs, person, sim, other) in r
  {
    RankedDistinctNames(prefs, person, n, sim, r);
    NamesCount(r);
    SubsetSameSize(NamesOf(r), Others(prefs, person));
    forall other | other in Others(prefs, person)
      ensures Entry(prefs, person, sim, other) in r
    {
      assert other in NamesOf(r);
      var i :| 0 <= i < |r| && r[i].name == other;
      assert r[i] == Entry(prefs, person, sim, other);
    }
  }

  /** Every element of `r1` is in `r2` or below all of `r2`. */
  predicate Covers(r1: seq<Match>, r2: seq<Match>)
  {
    forall i :: 0 <= i < |r1| ==> r1[i] in r2 || forall j :: 0 <= j < |r2| ==> Below(r1[i], r2[j])
  }

  lemma RankedCovers(prefs: Prefs, person: string, n: nat, sim: Similarity, r1: seq<Match>, r2: seq<Match>)
    requires Scored(prefs, person, sim)
    requires Ranked(prefs, person, n, sim, r1) && Ranked(prefs, person, n, sim, r2)
    ensures Covers(r1, r2)
  {
    forall i | 0 <= i < |r1|
      ensures r1[i] in r2 || forall j :: 0 <= j < |r2| ==> Below(r1[i], r2[j])
    {
      assert r1[i] == Entry(prefs, person, sim, r1[i].name);
    }
  }

  /**
   * Where two descending lists agree before position `k`, the element of
   * `r2` at `k` is not above that of `r1`, when each element of `r1` is in
   * `r2` or below all of it.
   */
  lemma NotAbove(r1: seq<Match>, r2: seq<Match>, k: nat)
    requires StrictlyDescending(r1) && StrictlyDescending(r2)
    requires k < |r1| && k < |r2| && r1[..k] == r2[..k]
    requires Covers(r1, r2)
    ensures !Below(r2[k], r1[k])
  {
    var x := r1[k];
    if Below(r2[k], x) {
      if x in r2 {
        var p :| 0 <= p < |r2| && r2[p] == x;
        if p < k {
          assert r1[p] == r2[p];
          BelowIrreflexive(x);
        } else if p == k {
          BelowIrreflexive(x);
        } else {
          BelowAsymmetric(r2[k], x);
        }
      } else {
        BelowAsymmetric(r2[k], x);
      }
    }
  }

  lemma {:induction false} AgreeUpTo(r1: seq<Match>, r2: seq<Match>, k: nat)
    requires StrictlyDescending(r1) && StrictlyDescending(r2)
    requires |r1| == |r2| && k <= |r1|
    requires Covers(r1, r2) && Covers(r2, r1)
    ensures r1[..k] == r2[..k]
  {
    if k > 0 {
      AgreeUpTo(r1, r2, k - 1);
      NotAbove(r1, r2, k - 1);
      NotAbove(r2, r1, k - 1);
      if r1[k - 1] != r2[k - 1] {
        BelowTotal(r1[k - 1], r2[k - 1]);
      }
      assert r1[..k] == r1[..k - 1] + [r1[k - 1]];
      assert r2[..k] == r2[..k - 1] + [r2[k - 1]];
    }
  }

  /**
   * The ranking is determined by the dataset, `person`, `n` and the
   * similarity: the unspecified dictionary order that builds `scores`
   * does not show in the result.
   */
  lemma RankedUnique(prefs: Prefs, person: string, n: nat, sim: Similarity, r1: seq<Match>, r2: seq<Match>)
    requires Scored(prefs, person, sim)
    requires Ranked(prefs, person, n, sim, r1) && Ranked(prefs, person, n, sim, r2)
    ensures r1 == r2
  {
    RankedCovers(prefs, person, n, sim, r1, r2);
    RankedCovers(prefs, person, n, sim, r2, r1);
    AgreeUpTo(r1, r2, |r1|);
  }

  /** `_sim_pearson`, the default similarity, over a fixed square root. */
  function PearsonOf(sqrt: real -> real): (sim: Similarity)
    ensures forall prefs, p1, p2 :: sim(prefs, p1, p2) == PearsonSimilarity.Pearson(prefs, p1, p2, sqrt)
  {
    (prefs: Prefs, p1: string, p2: string) => PearsonSimilarity.Pearson(prefs, p1, p2, sqrt)
  }

  /**
   * With the default similarity, `top_matches` raises exactly when
   * `person` is not in the dataset and some other entity is, and then it
   * is the lookup of `person` that fails.
   */
  lemma PearsonScored(prefs: Prefs, person: string, sqrt: real -> real)
    ensures Scored(prefs, person, PearsonOf(sqrt)) <==> person in prefs || Others(prefs, person) == {}
    ensures person !in prefs ==> forall other :: other in Others(prefs, person) ==>
      PearsonOf(sqrt)(prefs, person, other) == Err(NotFound(person))
  {
    if person !in prefs && Others(prefs, person) != {} {
      var other :| other in Others(prefs, person);
      assert PearsonOf(sqrt)(prefs, person, other).Err?;
    }
  }
}
