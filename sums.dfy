/** Exact arithmetic used by the statistics: sums and means of sequences
    (Python's `sum` and `statistics.mean`, over `int` and `real` without
    rounding) and sums over the values of a map (a sum over a dict whose
    iteration order must not matter). */
module Sums {

  /** Sum of a sequence of integers. */
  function Sum(xs: seq<int>): int
  {
    if xs == [] then 0 else Sum(xs[..|xs| - 1]) + xs[|xs| - 1]
  }

  /** Sum of a sequence of reals. */
  function SumReal(xs: seq<real>): real
  {
    if xs == [] then 0.0 else SumReal(xs[..|xs| - 1]) + xs[|xs| - 1]
  }

  /** Arithmetic mean of a non-empty list of integer scores, exactly. */
  function Mean(xs: seq<int>): real
    requires |xs| > 0
  {
    Sum(xs) as real / |xs| as real
  }

  /** Arithmetic mean of a non-empty list of reals, exactly. */
  function MeanReal(xs: seq<real>): real
    requires |xs| > 0
  {
    SumReal(xs) / |xs| as real
  }

  lemma {:induction false} SumRealAppend(a: seq<real>, b: seq<real>)
    ensures SumReal(a + b) == SumReal(a) + SumReal(b)
    decreases |b|
  {
    if b == [] {
      assert a + b == a;
    } else {
      assert (a + b)[..|a + b| - 1] == a + b[..|b| - 1];
      assert SumReal(a + b) == SumReal(a + b[..|b| - 1]) + b[|b| - 1];
      SumRealAppend(a, b[..|b| - 1]);
    }
  }

  /** A sum of |xs| integers that each lie in [lo, hi] lies in [lo*|xs|, hi*|xs|]. */
  lemma {:induction false} SumWithin(xs: seq<int>, lo: int, hi: int)
    requires forall i :: 0 <= i < |xs| ==> lo <= xs[i] <= hi
    ensures lo * |xs| <= Sum(xs) <= hi * |xs|
    decreases |xs|
  {
    if xs != [] {
      var init := xs[..|xs| - 1];
      SumWithin(init, lo, hi);
      assert lo * |xs| == lo * |init| + lo;
      assert hi * |xs| == hi * |init| + hi;
    }
  }

  lemma {:induction false} SumRealWithin(xs: seq<real>, lo: real, hi: real)
    requires forall i :: 0 <= i < |xs| ==> lo <= xs[i] <= hi
    ensures lo * |xs| as real <= SumReal(xs) <= hi * |xs| as real
    decreases |xs|
  {
    if xs != [] {
      var init := xs[..|xs| - 1];
      SumRealWithin(init, lo, hi);
      assert lo * |xs| as real == lo * |init| as real + lo;
      assert hi * |xs| as real == hi * |init| as real + hi;
    }
  }

  /** A quotient s / n with n > 0 lies in [lo, hi] when s lies in [lo*n, hi*n]. */
  lemma QuotientWithin(s: real, n: real, lo: real, hi: real)
    requires n > 0.0 && lo * n <= s <= hi * n
    ensures lo <= s / n <= hi
  {
    var q := s / n;
    assert q * n == s;
    assert (q - lo) * n >= 0.0 && (hi - q) * n >= 0.0;
  }

  /** The mean of scores that all lie in [lo, hi] lies in [lo, hi]. */
  lemma MeanWithin(xs: seq<int>, lo: int, hi: int)
    requires |xs| > 0
    requires forall i :: 0 <= i < |xs| ==> lo <= xs[i] <= hi
    ensures lo as real <= Mean(xs) <= hi as real
  {
    SumWithin(xs, lo, hi);
    QuotientWithin(Sum(xs) as real, |xs| as real, lo as real, hi as real);
  }

  /** The mean of reals that all lie in [lo, hi] lies in [lo, hi]. */
  lemma MeanRealWithin(xs: seq<real>, lo: real, hi: real)
    requires |xs| > 0
    requires forall i :: 0 <= i < |xs| ==> lo <= xs[i] <= hi
    ensures lo <= MeanReal(xs) <= hi
  {
    SumRealWithin(xs, lo, hi);
    QuotientWithin(SumReal(xs), |xs| as real, lo, hi);
  }

  /** Some element of a non-empty set; the same set always gives the same element. */
  ghost function Pick<K>(s: set<K>): (k: K)
    requires s != {}
    ensures k in s
  {
    var k :| k in s; k
  }

  /** Some element of a non-empty set, for a loop that visits a set element by element. */
  method Choose<K>(s: set<K>) returns (k: K)
    requires s != {}
    ensures k in s
  {
    k :| k in s;
  }

  /** Sum of the values of a finite map, whatever order its keys are visited in. */
  ghost function SumValues<K>(m: map<K, real>): real
    decreases m.Keys
  {
    if m == map[] then 0.0
    else
      var k := Pick(m.Keys);
      m[k] + SumValues(m - {k})
  }

  /** Any key, not only the one SumValues happens to pick, can be taken out first. */
  lemma {:induction false} SumValuesRemove<K>(m: map<K, real>, k: K)
    requires k in m
    ensures SumValues(m) == m[k] + SumValues(m - {k})
    decreases m.Keys
  {
    var j := Pick(m.Keys);
    if j != k {
      SumValuesRemove(m - {j}, k);
      SumValuesRemove(m - {k}, j);
      assert m - {j} - {k} == m - {k} - {j};
    }
  }

  /** The sum over a map with exactly two keys. */
  lemma SumValuesOfTwo<K>(m: map<K, real>, a: K, b: K)
    requires a != b && m.Keys == {a, b}
    ensures SumValues(m) == m[a] + m[b]
  {
    SumValuesRemove(m, a);
    var rest := m - {a};
    assert rest.Keys == {b};
    SumValuesRemove(rest, b);
    assert (rest - {b}).Keys == {};
    assert rest - {b} == map[];
  }

  /** Visiting one more key adds its value: the step of a loop over the keys of `m`. */
  lemma SumValuesVisit<K>(m: map<K, real>, pending: set<K>, k: K)
    requires k in pending && pending <= m.Keys
    ensures SumValues(m - (pending - {k})) == SumValues(m - pending) + m[k]
  {
    var after := m - (pending - {k});
    SumValuesRemove(after, k);
    assert after - {k} == m - pending;
  }

  /** When every value of `totals` is at most 100 times the value of `counts`
      under the same key, so is the sum of the values. */
  lemma {:induction false} SumValuesBounded<K>(totals: map<K, real>, counts: map<K, real>)
    requires totals.Keys == counts.Keys
    requires forall k :: k in totals ==> totals[k] <= 100.0 * counts[k]
    ensures SumValues(totals) <= 100.0 * SumValues(counts)
    decreases totals.Keys
  {
    if totals != map[] {
      var k := Pick(totals.Keys);
      assert Pick(counts.Keys) == k;
      var t', c' := totals - {k}, counts - {k};
      forall j | j in t'
        ensures t'[j] <= 100.0 * c'[j]
      {
        assert j in totals;
      }
      SumValuesBounded(t', c');
    }
  }

  /** When every value of `totals` lies between 0 and 100 times the value of
      `counts` under the same key, the ratio of their sums lies between 0 and 100. */
  lemma RatioOfSumsWithin<K>(totals: map<K, real>, counts: map<K, real>)
    requires totals.Keys == counts.Keys
    requires forall k :: k in totals ==> 0.0 <= totals[k] <= 100.0 * counts[k]
    requires SumValues(counts) > 0.0
    ensures 0.0 <= SumValues(totals) / SumValues(counts) <= 100.0
  {
    SumValuesNonNegative(totals);
    SumValuesBounded(totals, counts);
    QuotientWithin(SumValues(totals), SumValues(counts), 0.0, 100.0);
  }

  /** With no negative values, the sum is at least the value of any one key. */
  lemma SumValuesAtLeast<K>(m: map<K, real>, k: K)
    requires k in m
    requires forall j :: j in m ==> m[j] >= 0.0
    ensures SumValues(m) >= m[k]
  {
    SumValuesRemove(m, k);
    SumValuesNonNegative(m - {k});
  }

  lemma {:induction false} SumValuesNonNegative<K>(m: map<K, real>)
    requires forall j :: j in m ==> m[j] >= 0.0
    ensures SumValues(m) >= 0.0
    decreases m.Keys
  {
    if m != map[] {
      SumValuesNonNegative(m - {Pick(m.Keys)});
    }
  }
}
