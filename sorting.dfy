/**
 * `scores.sort()` and `scores.reverse()`: Python's list sort by the tuple
 * order, and the in-place reversal, as methods on sequences.
 */
module Sorting {
  import opened Scores

  /** Ascending in Python's tuple order (equal tuples may sit side by side). */
  predicate Ascending(s: seq<Match>)
  {
    forall i, j :: 0 <= i < j < |s| ==> !Below(s[j], s[i])
  }

  /** Every tuple occurs at most once. */
  ghost predicate NoRepeats(s: seq<Match>)
  {
    forall x :: multiset(s)[x] <= 1
  }

  /** Two positions holding the same value make that value occur twice. */
  lemma RepeatedValue<T>(s: seq<T>, i: int, j: int)
    requires 0 <= i < j < |s| && s[i] == s[j]
    ensures multiset(s)[s[i]] >= 2
  {
    assert s == s[..j] + s[j..];
    assert s[i] in multiset(s[..j]);
    assert s[j] in multiset(s[j..]);
  }

  /** What is not below `y` is not below anything below `y`. */
  lemma NotBelowThrough(x: Match, y: Match, z: Match)
    requires Below(x, y) && !Below(z, y)
    ensures !Below(z, x)
  {
    if Below(z, x) {
      BelowTransitive(z, x, y);
    }
  }

  /**
   * Putting `x` after every element it is not below and before the first
   * element it is below keeps the sequence ascending.
   */
  lemma InsertedAscending(t: seq<Match>, x: Match, j: int)
    requires Ascending(t) && 0 <= j <= |t|
    requires forall i :: 0 <= i < j ==> !Below(x, t[i])
    requires j < |t| ==> Below(x, t[j])
    ensures Ascending(t[..j] + [x] + t[j..])
  {
    var u := t[..j] + [x] + t[j..];
    assert forall k :: 0 <= k < j ==> u[k] == t[k];
    assert u[j] == x;
    assert forall k :: j < k < |u| ==> u[k] == t[k - 1];
    forall a, b | 0 <= a < b < |u|
      ensures !Below(u[b], u[a])
    {
      if b < j {
        assert u[a] == t[a] && u[b] == t[b];
      } else if b == j {
        assert u[a] == t[a];
      } else if a == j {
        assert u[b] == t[b - 1];
        if b - 1 == j {
          BelowAsymmetric(x, t[j]);
        } else {
          assert !Below(t[b - 1], t[j]);
          NotBelowThrough(x, t[j], t[b - 1]);
        }
      } else if a < j {
        assert u[a] == t[a] && u[b] == t[b - 1];
      } else {
        assert u[a] == t[a - 1] && u[b] == t[b - 1];
      }
    }
  }

  /**
   * Places `x` into the ascending `t` after every element it is not
   * below, so among equal tuples the earlier ones stay first.
   */
  method Insert(t: seq<Match>, x: Match) returns (u: seq<Match>)
    requires Ascending(t)
    ensures Ascending(u)
    ensures multiset(u) == multiset(t) + multiset{x}
  {
    var j := 0;
    while j < |t| && !Below(x, t[j])
      invariant 0 <= j <= |t|
      invariant forall i :: 0 <= i < j ==> !Below(x, t[i])
    {
      j := j + 1;
    }
    u := t[..j] + [x] + t[j..];
    InsertedAscending(t, x, j);
    assert t == t[..j] + t[j..];
  }

  /** `scores.sort()`: an ascending permutation of the input. */
  method Sort(s: seq<Match>) returns (t: seq<Match>)
    ensures Ascending(t)
    ensures multiset(t) == multiset(s)
  {
    t := [];
    var i := 0;
    while i < |s|
      invariant 0 <= i <= |s|
      invariant Ascending(t)
      invariant multiset(t) == multiset(s[..i])
    {
      t := Insert(t, s[i]);
      assert s[..i + 1] == s[..i] + [s[i]];
      i := i + 1;
    }
    assert s[..|s|] == s;
  }

  /** `scores.reverse()`: the same elements in the opposite order. */
  method Reverse<T>(s: seq<T>) returns (r: seq<T>)
    ensures |r| == |s|
    ensures forall i :: 0 <= i < |s| ==> r[i] == s[|s| - 1 - i]
    ensures multiset(r) == multiset(s)
  {
    r := [];
    var i := 0;
    while i < |s|
      invariant 0 <= i <= |s| && |r| == i
      invariant forall k :: 0 <= k < i ==> r[k] == s[i - 1 - k]
      invariant multiset(r) == multiset(s[..i])
    {
      r := [s[i]] + r;
      assert s[..i + 1] == s[..i] + [s[i]];
      i := i + 1;
    }
    assert s[..|s|] == s;
  }
}
