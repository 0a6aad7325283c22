# Pearson similarity and top matches, in Dafny

This project models `lib/recommendations.py`, the statistical core of a small
recommendation engine. The dataset maps each entity to that entity's ratings,
and each rating is keyed by an item. The file has two operations.

- `_sim_pearson(prefs, p1, p2)` collects the items both entities have rated.
  It returns 0 when there are none. Otherwise it forms five sums over those
  items (`sum1`, `sum2`, `sum1_sq`, `sum2_sq`, `p_sum`), a numerator and a
  denominator. It returns 0 when the denominator is 0, and the quotient
  otherwise.
- `top_matches(prefs, person, n, similarity)` pairs every other entity with
  its similarity to `person`, rounded to two decimals. It sorts the
  `(score, name)` pairs ascending, reverses them and keeps the first `n`.

The model follows the source's own shape:

- The loop that fills `si` is a method, `PearsonSimilarity.CollectShared`.
  The sums, the numerator and the denominator are functions.
- The comprehension that builds `scores` is a loop over the other keys,
  `Ranking.ScoreAll`.
- `scores.sort()` and `scores.reverse()` are methods on sequences,
  `Sorting.Sort` and `Sorting.Reverse`. They are proved against the
  `Ascending` and reversal specifications.
- `top_matches` itself is `Ranking.TopMatches`. It is proved to return the
  unique list described by `Ranking.Ranked`.

All arithmetic is on exact reals. `math.sqrt` is a parameter `sqrt: real -> real`.
Lemmas that need it require one of two predicates:

- `IsRoot(sqrt)`: a non-negative result that is zero exactly at zero. This is
  what the zero-denominator rule relies on.
- `IsExactRoot(sqrt)`: the result squares back to its argument.

A `KeyError` is the `Err(NotFound(key))` value of a `Result`.

Modules:

- `Common`: the dataset types, `Result` and `Error`.
- `StringOrder`: Python's `str` ordering. It also gives sums over a set a
  fixed summation order.
- `Sums`: sums over a map, squares, and the spread lemma.
- `PearsonSimilarity`: the similarity.
- `PearsonProperties`: facts about the similarity.
- `Scores`: the `(score, name)` tuples, their order, and `round(x, 2)`.
- `Sorting`: the sort and the reversal.
- `Ranking`: the ranker.
- `RankingProperties`: facts about the ranking.
- `Example`: a worked three-entity dataset.

## Model

| member | source | states |
|---|---|---|
| PearsonSimilarity.SharedItems | lib/recommendations.py:18-21 | Fails exactly when `p1` is missing, or `prefs[p1]` is non-empty and `p2` is missing, naming that key; otherwise holds exactly the items rated by both |
| PearsonSimilarity.CollectShared | lib/recommendations.py:18-21 | The loop over `prefs[p1]`, in any visiting order, yields `SharedItems`: `prefs[p2]` is looked up only when there is an item to test |
| PearsonSimilarity.Pearson | lib/recommendations.py:5-38 | Raises exactly when the shared-item collection raises, with the same missing key; otherwise returns 0 for no shared items, 0 for a zero denominator, else `num / den` |
| PearsonSimilarity.SimPearson | lib/recommendations.py:18-38 | The statement sequence of `_sim_pearson` (loop, early return, sums, `num`, `den`, zero test, division) computes `Pearson` |
| PearsonProperties.NoOverlapIsZero | lib/recommendations.py:23-25 | With no item in common, including an empty `prefs[p1]` with `p2` absent, the similarity is exactly 0 |
| Sums.Sum | lib/recommendations.py:27-31 | Python's `sum` over the shared items, in exact arithmetic; `Sums.SumSplit` shows the summation order does not matter |
| PearsonSimilarity.Column | lib/recommendations.py:27-30 | The list `[prefs[p][it] for it in si]`: defined exactly on the shared items, holding each entity's own rating of each |
| PearsonSimilarity.Products | lib/recommendations.py:31 | The list `[prefs[p1][it] * prefs[p2][it] for it in si]`, one product per shared item |
| PearsonSimilarity.MomentsOf | lib/recommendations.py:23-31 | `n` and the five sums `sum1`, `sum2`, `sum1_sq`, `sum2_sq`, `p_sum`; its `n` is the number of shared items |
| PearsonSimilarity.Numerator | lib/recommendations.py:32 | `num = p_sum - (sum1 * sum2 / n)`; `PearsonProperties.SwapKeepsTerms` shows it is the same for both argument orders |
| PearsonSimilarity.Variation | lib/recommendations.py:33 | One factor `sum_sq - pow(sum, 2) / n` under the root; `PearsonProperties.VariationFacts` shows it is non-negative and zero exactly for constant ratings |
| PearsonSimilarity.DenominatorArg | lib/recommendations.py:33 | The argument of `sqrt` in `den`, the product of the two factors; `PearsonProperties.DenominatorArgFacts` gives its sign and its zeros |
| Sums.SumSplit | lib/recommendations.py:27-31 | A sum over the shared items can take any item out first, so its value does not depend on the order Python visits the dict |
| Sums.SumNonNegative | lib/recommendations.py:29-30 | A sum of non-negative terms is non-negative, and zero exactly when every term is zero |
| Sums.SpreadSplit | lib/recommendations.py:29-33 | Taking one value out: the spread `n * sum_sq - sum^2` is the spread of the rest plus the squared distances of that value from the rest |
| Sums.SpreadProperties | lib/recommendations.py:29-33 | `n * sum_sq - sum^2` is never negative, and is zero when all the values are equal |
| Sums.SpreadZero | lib/recommendations.py:29-33 | Conversely, a zero `n * sum_sq - sum^2` means all the values are equal |
| PearsonProperties.VariationFacts | lib/recommendations.py:33 | Each factor `sum_sq - pow(sum, 2) / n` under the root is non-negative, and zero exactly when the ratings are constant |
| PearsonProperties.DenominatorArgFacts | lib/recommendations.py:33 | The argument of `sqrt` is never negative, and is zero exactly when one of the two entities rated all shared items alike |
| PearsonProperties.ZeroDenominator | lib/recommendations.py:33-38 | With a genuine root: a zero argument gives similarity 0; otherwise `den > 0` and the result is `num / den`, so no division by zero happens |
| PearsonProperties.ConstantRatingsIsZero | lib/recommendations.py:23-36 | If either entity gave every shared item the same rating, the similarity is 0 rather than an error |
| PearsonProperties.MomentsSwap | lib/recommendations.py:27-31 | Exchanging `p1` and `p2` exchanges `sum1`/`sum2` and `sum1_sq`/`sum2_sq` and keeps `n` and `p_sum` |
| PearsonProperties.SwapKeepsTerms | lib/recommendations.py:32-33 | Exchanging the two entities' sums leaves `num` and the argument of `sqrt` unchanged |
| PearsonProperties.Symmetric | lib/recommendations.py:18-38 | For two entities in the dataset, `_sim_pearson(p1, p2) == _sim_pearson(p2, p1)` |
| PearsonProperties.ExactRootIsRoot | lib/recommendations.py:33 | An exact square root is zero exactly at zero, as the zero-denominator rule needs |
| PearsonProperties.SelfSimilarity | lib/recommendations.py:5-38 | An entity compared with itself scores 1, or 0 when its ratings have no spread, for example when all are equal |
| StringOrder.Less | lib/recommendations.py:57 | Python's `<` on `str`, code point by code point, a proper prefix first; `StringOrder.Transitive` and `StringOrder.Total` make it a strict total order |
| Scores.Below | lib/recommendations.py:57 | Python's `<` on `(score, name)` tuples, the order `sort()` uses: by score, then by name |
| Scores.BelowTransitive | lib/recommendations.py:57 | The tuple order used by `sort()` is transitive; `Scores.BelowAsymmetric` and `Scores.BelowTotal` make it a strict total order on distinct pairs |
| Scores.BelowTotal | lib/recommendations.py:57 | Two different `(score, name)` pairs are always ordered one way or the other |
| StringOrder.Transitive | lib/recommendations.py:57 | Python's string comparison, which breaks score ties, is transitive |
| StringOrder.Total | lib/recommendations.py:57 | Two different strings are always ordered one way or the other |
| Scores.Hundredths | lib/recommendations.py:56 | `round(x, 2)` in hundredths: within half a hundredth of `100 * x`, and even on a tie |
| Scores.HundredthsUnique | lib/recommendations.py:56 | Only one integer is nearest to `100 * x` with ties to even |
| Scores.Round2 | lib/recommendations.py:56 | The rounded score is within 0.005 of the similarity |
| Scores.Round2Monotone | lib/recommendations.py:56 | Rounding never reverses the order of two similarities |
| Scores.Round2Idempotent | lib/recommendations.py:56 | Rounding a rounded score changes nothing |
| Sorting.InsertedAscending | lib/recommendations.py:57 | Inserting before the first larger pair keeps a list ascending |
| Sorting.Insert | lib/recommendations.py:57 | Insertion returns an ascending list with exactly one more occurrence of the new pair |
| Sorting.Sort | lib/recommendations.py:57 | `scores.sort()` yields an ascending permutation of `scores` |
| Sorting.Reverse | lib/recommendations.py:58 | `scores.reverse()` puts element `i` at position `len - 1 - i` and keeps the same multiset |
| Ranking.Others | lib/recommendations.py:56 | The keys the comprehension keeps, `other in prefs if other != person`: exactly the keys other than `person` |
| Ranking.Entry | lib/recommendations.py:56 | The tuple `(round(similarity(prefs, person, other), 2), other)`, named by `other` |
| Ranking.ScoredStep | lib/recommendations.py:56 | Adding the pair of a newly visited entity keeps "one pair per visited entity, nothing else" |
| Ranking.ScoredAll | lib/recommendations.py:56 | After every other entity is visited, each has its pair, names are distinct and the length is the number of other entities |
| Ranking.ScoreAll | lib/recommendations.py:56 | Raises exactly when some other entity's similarity raises, and with that error; otherwise holds one `(round(sim, 2), other)` pair per other key, never `person` |
| Ranking.DistinctNamesNoRepeats | lib/recommendations.py:56-57 | Pairs with distinct names are distinct tuples, so the sorted list has no repeated tuple |
| Ranking.ReversedDescending | lib/recommendations.py:57-58 | Reversing an ascending list without repeats gives a strictly descending one |
| Ranking.DescendingPrefixRanked | lib/recommendations.py:60 | The first `min(n, len)` pairs of the descending list are the `Ranked` result |
| Ranking.Ranked | lib/recommendations.py:57-60 | The value returned: `min(n, #others)` pairs of other entities, strictly descending, each pair left out below every pair kept; `RankingProperties.RankedUnique` shows only one list qualifies |
| Ranking.TopMatches | lib/recommendations.py:41-60 | `n` defaults to 3. Raises exactly when some similarity raises; otherwise returns `min(n, #others)` distinct other-entity pairs, strictly descending, each pair left out below every pair kept |
| RankingProperties.RankedOrder | lib/recommendations.py:56-58 | `person` never appears, scores never increase along the result, and equal scores come in descending name order |
| RankingProperties.RankedDistinctNames | lib/recommendations.py:56 | No entity appears twice in the result |
| RankingProperties.RankedComplete | lib/recommendations.py:60 | When `n` is at least the number of other entities, every other entity appears in the result |
| RankingProperties.RankedUnique | lib/recommendations.py:56-60 | The result is determined by the dataset, `person`, `n` and the similarity; dict iteration order does not show |
| RankingProperties.PearsonScored | lib/recommendations.py:45-56 | With the default similarity, ranking raises exactly when `person` is not a key and some other key exists, and the error names `person` |
| Example.ExampleSimilarities | lib/recommendations.py:5-38 | For A = (3, 4), B = (3, 4), C = (1, 5), both sim(A, B) and sim(A, C) are 1 |
| Example.ExampleTopMatches | lib/recommendations.py:41-60 | `top_matches(prefs, "A", 2)` is `[(1.0, "C"), (1.0, "B")]`: the tie at 1.0 puts C first |

## Left out

- Floating point. Every sum, product, division and comparison is on exact
  reals. IEEE-754 rounding, NaN and infinities are not modelled.
- `math.sqrt` raising on a slightly negative argument is a floating-point
  effect and is not modelled. In exact arithmetic the argument is never
  negative (`PearsonProperties.DenominatorArgFacts`).
- `sqrt` is a parameter, not the library routine. The similarity's value is
  only as exact as the `IsRoot` or `IsExactRoot` assumption made about it.
- Scores.Round2 rounds the exact real, ties to even. Python rounds the binary
  double, so values such as 2.675, stored slightly below the half-way point,
  can round differently.
- Dict iteration order. The two loops choose their next key arbitrarily. The
  sums use one fixed order, and `Sums.SumSplit` shows the order is
  irrelevant in exact arithmetic. Which failing entity `top_matches`
  reports, when several fail, depends on dict order. The model promises
  only that it is one of them.
- The comprehension's `if other != person` filter is modelled as a loop over
  the keys other than `person`. This is the same set, visited in an
  unspecified order.
- Python's `sort()` is a stable merge sort. The model uses a stable insertion
  sort. All pairs are distinct, so the results agree.
- `_sim_pearson` returns the integer 0 on its early returns. The model
  returns the real 0.
- The `List[List[str]]` return annotation is inaccurate. The model returns
  `(score, name)` pairs, as the code does.
- The default `similarity=_sim_pearson` is not a default of
  `Ranking.TopMatches`, because the model's similarity needs a square root to
  be given. The default similarity over a square root `sqrt` is
  `RankingProperties.PearsonOf(sqrt)`. The default `n = 3` is modelled.
- Negative `n` is excluded by the `nat` parameter. Python's `scores[0:n]`
  with `n < 0` would drop trailing pairs instead.
- A similarity function that raises something other than `KeyError` is
  represented by the same `Err` value.
- The result's range of [-1, 1] is not proved. It needs the Cauchy-Schwarz
  inequality, and the source does not promise it.
- Dataset loading, JSON input and any calling code are I/O and are not part
  of this model.
- Two consequences of the code that its callers may not expect; the model
  follows the code:
  - A missing `p2` is not an error when `prefs[p1]` is empty. The code reads
    `prefs[p2]` only inside the loop over `prefs[p1]`, so it returns 0
    (`PearsonSimilarity.SharedItems`).
  - For A = (3, 4) and C = (1, 5) over items x and y, both entities' ratings
    rise from x to y, so the similarity is +1
    (`Example.ExampleSimilarities`). Equal scores are ordered by descending
    name, so `top_matches` for A with `n = 2` returns
    `[(1.0, "C"), (1.0, "B")]`, C before B (`Example.ExampleTopMatches`).
