/**
 * Python's ordering of `str` values: lexicographic by code point, a proper
 * prefix sorting before its extensions. Used to break ties between equal
 * scores and to give sums over sets a fixed order.
 */
module StringOrder {

  predicate Less(a: string, b: string)
  {
    if |a| == 0 then |b| > 0
    else if |b| == 0 then false
    else a[0] < b[0] || (a[0] == b[0] && Less(a[1..], b[1..]))
  }

  predicate LessEq(a: string, b: string)
  {
    a == b || Less(a, b)
  }

  lemma {:induction false} Irreflexive(a: string)
    ensures !Less(a, a)
  {
    if |a| > 0 {
      Irreflexive(a[1..]);
    }
  }

  lemma {:induction false} Asymmetric(a: string, b: string)
    requires Less(a, b)
    ensures !Less(b, a)
  {
    if |a| > 0 && |b| > 0 && a[0] == b[0] {
      Asymmetric(a[1..], b[1..]);
    }
  }

  lemma {:induction false} Transitive(a: string, b: string, c: string)
    requires Less(a, b) && Less(b, c)
    ensures Less(a, c)
  {
    if |a| > 0 && a[0] == b[0] && b[0] == c[0] {
      Transitive(a[1..], b[1..], c[1..]);
    }
  }

  lemma {:induction false} Total(a: string, b: string)
    requires a != b
    ensures Less(a, b) || Less(b, a)
  {
    if |a| > 0 && |b| > 0 && a[0] == b[0] {
      assert a == [a[0]] + a[1..] && b == [b[0]] + b[1..];
      Total(a[1..], b[1..]);
    }
  }

  /** Two strings each at most the other are equal. */
  lemma Antisymmetric(a: string, b: string)
    requires LessEq(a, b) && LessEq(b, a)
    ensures a == b
  {
    if a != b {
      Asymmetric(a, b);
    }
  }

  /** Every non-empty finite set of strings has a least element. */
  lemma {:induction false} MinExists(s: set<string>) returns (m: string)
    requires s != {}
    ensures m in s && forall y :: y in s ==> LessEq(m, y)
    decreases |s|
  {
    var x :| x in s;
    if s == {x} {
      m := x;
    } else {
      var rest := s - {x};
      var r := MinExists(rest);
      if Less(x, r) {
        m := x;
        forall y | y in s
          ensures LessEq(x, y)
        {
          if y != x && y != r {
            assert y in rest;
            Transitive(x, r, y);
          }
        }
      } else {
        m := r;
        if x != r {
          Total(x, r);
        }
        forall y | y in s
          ensures LessEq(r, y)
        {
          if y != x {
            assert y in rest;
          }
        }
      }
    }
  }

  lemma HasMin(s: set<string>)
    requires s != {}
    ensures exists m :: m in s && forall y :: y in s ==> LessEq(m, y)
  {
    var m := MinExists(s);
  }

  /** The least element of a non-empty set of strings. */
  function MinOf(s: set<string>): (m: string)
    requires s != {}
    ensures m in s && forall y :: y in s ==> LessEq(m, y)
  {
    HasMin(s);
    AntisymmetricAll();
    var m :| m in s && forall y :: y in s ==> LessEq(m, y);
    m
  }

  lemma AntisymmetricAll()
    ensures forall a, b :: LessEq(a, b) && LessEq(b, a) ==> a == b
  {
    forall a, b | LessEq(a, b) && LessEq(b, a)
      ensures a == b
    {
      Antisymmetric(a, b);
    }
  }

  /** Any element below every element of the set is its minimum. */
  lemma MinOfUnique(s: set<string>, m: string)
    requires m in s && forall y :: y in s ==> LessEq(m, y)
    ensures MinOf(s) == m
  {
    Antisymmetric(m, MinOf(s));
  }
}
