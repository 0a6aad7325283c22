/**
 * `top_matches`: score every other entity against `person`, sort the
 * `(score, name)` pairs, reverse them and keep the first `n`.
 *
 * The similarity function is a parameter, as in the source. A similarity
 * that raises is modelled by an `Err` result, which ends the ranking.
 */
module Ranking {
  import opened Common
  import opened Scores
  import opened Sorting

  type Similarity = (Prefs, string, string) -> Result<real>

  /** The entities `person` is compared with: every key except `person` itself. */
  function Others(prefs: Prefs, person: string): (o: set<string>)
    ensures forall k :: k in o <==> k in prefs && k != person
  {
    prefs.Keys - {person}
  }

  /** The similarity to every other entity can be computed without raising. */
  predicate Scored(prefs: Prefs, person: string, sim: Similarity)
  {
    forall other :: other in Others(prefs, person) ==> sim(prefs, person, other).Ok?
  }

  /** `(round(similarity(prefs, person, other), 2), other)`. */
  function Entry(prefs: Prefs, person: string, sim: Similarity, other: string): (m: Match)
    requires sim(prefs, person, other).Ok?
    ensures m.name == other
  {
    Match(Round2(sim(prefs, person, other).value), other)
  }

  /** Every element of `s` is the pair for some other entity. */
  predicate AllEntries(prefs: Prefs, person: string, sim: Similarity, s: seq<Match>)
    requires Scored(prefs, person, sim)
  {
    forall i :: 0 <= i < |s| ==>
      s[i].name in Others(prefs, person) && s[i] == Entry(prefs, person, sim, s[i].name)
  }

  /** Each element is above the ones after it: descending, with no two equal. */
  predicate StrictlyDescending(s: seq<Match>)
  {
    forall i, j :: 0 <= i < j < |s| ==> Below(s[j], s[i])
  }

  /**
   * What `top_matches` returns: the pairs of the `min(n, #others)` most
   * similar other entities, highest first, equal scores by descending
   * name. Every pair left out is below every pair kept.
   */
  predicate Ranked(prefs: Prefs, person: string, n: nat, sim: Similarity, r: seq<Match>)
    requires Scored(prefs, person, sim)
  {
    && StrictlyDescending(r)
    && |r| == Min(n, |Others(prefs, person)|)
    && AllEntries(prefs, person, sim, r)
    && forall other :: other in Others(prefs, person) ==>
         Entry(prefs, person, sim, other) in r ||
         forall i :: 0 <= i < |r| ==> Below(Entry(prefs, person, sim, other), r[i])
  }

  /** No entity's name occurs twice. */
  predicate DistinctNames(s: seq<Match>)
  {
    forall i, j :: 0 <= i < j < |s| ==> s[i].name != s[j].name
  }

  /**
   * `scores` holds one pair for each entity of `done` and nothing else;
   * what the comprehension has built after visiting `done`.
   */
  ghost predicate ScoredSoFar(prefs: Prefs, person: string, sim: Similarity,
                              done: set<string>, scores: seq<Match>)
  {
    && (forall other :: other in done ==>
          sim(prefs, person, other).Ok? && Entry(prefs, person, sim, other) in scores)
    && (forall i :: 0 <= i < |scores| ==>
          scores[i].name in done && sim(prefs, person, scores[i].name).Ok? &&
          scores[i] == Entry(prefs, person, sim, scores[i].name))
    && DistinctNames(scores)
    && |scores| == |done|
  }

  /** Appending the pair of a new entity keeps `ScoredSoFar`. */
  lemma ScoredStep(prefs: Prefs, person: string, sim: Similarity,
                   done: set<string>, scores: seq<Match>, other: string)
    requires ScoredSoFar(prefs, person, sim, done, scores)
    requires other !in done && sim(prefs, person, other).Ok?
    ensures ScoredSoFar(prefs, person, sim, done + {other}, scores + [Entry(prefs, person, sim, other)])
  {
    var next := scores + [Entry(prefs, person, sim, other)];
    forall o | o in done
      ensures Entry(prefs, person, sim, o) in next
    {
      var i :| 0 <= i < |scores| && scores[i] == Entry(prefs, person, sim, o);
      assert next[i] == scores[i];
    }
  }

  /** Once every other entity is visited, `scores` is the whole comprehension. */
  lemma ScoredAll(prefs: Prefs, person: string, sim: Similarity, scores: seq<Match>)
    requires ScoredSoFar(prefs, person, sim, Others(prefs, person), scores)
    ensures Scored(prefs, person, sim)
    ensures |scores| == |Others(prefs, person)| && DistinctNames(scores)
    ensures AllEntries(prefs, person, sim, scores)
    ensures forall other :: other in Others(prefs, person) ==> Entry(prefs, person, sim, other) in scores
  {
  }

  /**
   * The list comprehension that builds `scores`: one pair per key of
   * `prefs` other than `person`, in an unspecified order, stopping at the
   * first similarity that raises.
   */
  method ScoreAll(prefs: Prefs, person: string, sim: Similarity) returns (r: Result<seq<Match>>)
    ensures r.Err? <==> !Scored(prefs, person, sim)
    ensures r.Err? ==> exists other :: other in Others(prefs, person) && sim(prefs, person, other) == Err(r.error)
    ensures r.Ok? ==> |r.value| == |Others(prefs, person)| && DistinctNames(r.value)
    ensures r.Ok? ==> AllEntries(prefs, person, sim, r.value)
    ensures r.Ok? ==> forall other :: other in Others(prefs, person) ==>
      Entry(prefs, person, sim, other) in r.value
  {
    var scores: seq<Match> := [];
    var todo := Others(prefs, person);
    while todo != {}
      invariant todo <= Others(prefs, person)
      invariant ScoredSoFar(prefs, person, sim, Others(prefs, person) - todo, scores)
      decreases |todo|
    {
      var other :| other in todo;
      var s := sim(prefs, person, other);
      if s.Err? {
        return Err(s.error);
      }
      ScoredStep(prefs, person, sim, Others(prefs, person) - todo, scores, other);
      scores := scores + [Match(Round2(s.value), other)];
      assert Others(prefs, person) - (todo - {other}) == (Others(prefs, person) - todo) + {other};
      todo := todo - {other};
    }
    ScoredAll(prefs, person, sim, scores);
    return Ok(scores);
  }

  /** A tuple that occurs once cannot sit at two positions. */
  lemma DistinctPositions(s: seq<Match>, i: int, j: int)
    requires NoRepeats(s) && 0 <= i < j < |s|
    ensures s[i] != s[j]
  {
    if s[i] == s[j] {
      RepeatedValue(s, i, j);
    }
  }

  /**
   * `scores.sort()` followed by `scores.reverse()`: reversing an ascending
   * list without repeated tuples gives a strictly descending one.
   */
  lemma ReversedDescending(sorted: seq<Match>, desc: seq<Match>)
    requires Ascending(sorted) && NoRepeats(sorted)
    requires |desc| == |sorted|
    requires forall i :: 0 <= i < |sorted| ==> desc[i] == sorted[|sorted| - 1 - i]
    ensures StrictlyDescending(desc)
  {
    var last := |sorted| - 1;
    forall i, j | 0 <= i < j < |desc|
      ensures Below(desc[j], desc[i])
    {
      assert desc[i] == sorted[last - i] && desc[j] == sorted[last - j];
      DistinctPositions(sorted, last - j, last - i);
      BelowTotal(desc[i], desc[j]);
    }
  }

  /** Pairs with distinct names are distinct tuples, each occurring once. */
  lemma {:induction false} DistinctNamesNoRepeats(s: seq<Match>)
    requires DistinctNames(s)
    ensures NoRepeats(s)
  {
    if s != [] {
      var init := s[..|s| - 1];
      var last := s[|s| - 1];
      assert DistinctNames(init);
      DistinctNamesNoRepeats(init);
      assert s == init + [last];
      assert last !in init;
    }
  }

  /**
   * `scores[0:n]` of the descending list of all pairs is the ranking
   * `Ranked` describes.
   */
  lemma DescendingPrefixRanked(prefs: Prefs, person: string, n: nat, sim: Similarity,
                               scores: seq<Match>, desc: seq<Match>)
    requires Scored(prefs, person, sim)
    requires |scores| == |Others(prefs, person)|
    requires AllEntries(prefs, person, sim, scores)
    requires forall other :: other in Others(prefs, person) ==> Entry(prefs, person, sim, other) in scores
    requires StrictlyDescending(desc) && multiset(desc) == multiset(scores)
    ensures Ranked(prefs, person, n, sim, desc[..Min(n, |desc|)])
  {
    var k := Min(n, |desc|);
    var r := desc[..k];
    assert |desc| == |scores| by {
      assert |multiset(desc)| == |multiset(scores)|;
    }
    forall i | 0 <= i < |r|
      ensures r[i].name in Others(prefs, person) && r[i] == Entry(prefs, person, sim, r[i].name)
    {
      assert r[i] in multiset(scores);
      var p :| 0 <= p < |scores| && scores[p] == r[i];
    }
    forall other | other in Others(prefs, person)
      ensures Entry(prefs, person, sim, other) in r ||
        forall i :: 0 <= i < |r| ==> Below(Entry(prefs, person, sim, other), r[i])
    {
      var e := Entry(prefs, person, sim, other);
      assert e in multiset(desc);
      var p :| 0 <= p < |desc| && desc[p] == e;
      if p < k {
        assert r[p] == e;
      } else {
        forall i | 0 <= i < |r|
          ensures Below(e, r[i])
        {
          assert r[i] == desc[i];
        }
      }
    }
  }

  /**
   * `top_matches(prefs, person, n, similarity)`: the comprehension, the
   * ascending sort, the reversal and the slice `[0:n]`. As in the source,
   * `n` defaults to 3 (a call then names the similarity: `sim := ...`).
   */
  method TopMatches(prefs: Prefs, person: string, n: nat := 3, sim: Similarity) returns (r: Result<seq<Match>>)
    ensures r.Err? <==> !Scored(prefs, person, sim)
    ensures r.Err? ==> exists other :: other in Others(prefs, person) && sim(prefs, person, other) == Err(r.error)
    ensures r.Ok? ==> Ranked(prefs, person, n, sim, r.value)
  {
    var scored := ScoreAll(prefs, person, sim);
    if scored.Err? {
      return Err(scored.error);
    }
    var scores := scored.value;
    var sorted := Sort(scores);
    var desc := Reverse(sorted);
    DistinctNamesNoRepeats(scores);
    ReversedDescending(sorted, desc);
    DescendingPrefixRanked(prefs, person, n, sim, scores, desc);
    return Ok(desc[..Min(n, |desc|)]);
  }
}
