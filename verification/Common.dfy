/** Small vocabulary shared by the models. */
module Common {

  datatype Option<+T> = None | Some(value: T)

  /** No element occurs twice. */
  ghost predicate Distinct<T>(s: seq<T>) {
    forall i, j | 0 <= i < j < |s| :: s[i] != s[j]
  }

  /** The elements of a sequence, as a set. */
  function Elements<T>(s: seq<T>): set<T> {
    set x | x in s
  }

  /** A sequence without repetitions has as many elements as its set. */
  lemma {:induction false} DistinctSize<T>(s: seq<T>)
    requires Distinct(s)
    ensures |Elements(s)| == |s|
  {
    if s == [] {
      assert Elements(s) == {};
    } else {
      var last := |s| - 1;
      DistinctSize(s[..last]);
      assert Elements(s) == Elements(s[..last]) + {s[last]};
      assert s[last] !in Elements(s[..last]);
    }
  }

  /** Sum of a measure over a sequence. */
  ghost function Sum<T>(s: seq<T>, f: T -> int): int {
    if s == [] then 0 else Sum(s[..|s| - 1], f) + f(s[|s| - 1])
  }

  /** Replacing one element changes the sum by the difference of the two measures. */
  lemma {:induction false} SumUpdate<T>(s: seq<T>, k: nat, x: T, f: T -> int)
    requires k < |s|
    ensures Sum(s[k := x], f) == Sum(s, f) - f(s[k]) + f(x)
  {
    var last := |s| - 1;
    if k == last {
      assert s[k := x][..last] == s[..last];
    } else {
      assert s[k := x][..last] == s[..last][k := x];
      SumUpdate(s[..last], k, x, f);
    }
  }

  /** A measure that is never negative has a sum that dominates each of its terms. */
  lemma {:induction false} SumAtLeast<T>(s: seq<T>, f: T -> int)
    requires forall x | x in s :: f(x) >= 0
    ensures Sum(s, f) >= 0
    ensures forall x | x in s :: f(x) <= Sum(s, f)
  {
    if s != [] {
      SumAtLeast(s[..|s| - 1], f);
    }
  }

  /** The positions at which a measure is not zero. */
  ghost function Support<T>(s: seq<T>, f: T -> int): set<int> {
    set i | 0 <= i < |s| && f(s[i]) != 0
  }

  /** A measure that is 0 or 1 sums to the number of positions at which it is 1. */
  lemma {:induction false} SumIsCount<T>(s: seq<T>, f: T -> int)
    requires forall x | x in s :: f(x) == 0 || f(x) == 1
    ensures Sum(s, f) == |Support(s, f)|
  {
    if s == [] {
      assert Support(s, f) == {};
    } else {
      var last := |s| - 1;
      SumIsCount(s[..last], f);
      if f(s[last]) == 0 {
        assert Support(s, f) == Support(s[..last], f);
      } else {
        assert Support(s, f) == Support(s[..last], f) + {last};
      }
    }
  }
}
