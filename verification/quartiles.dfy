/** The quartile part of the distribution estimator: the defined percentage
    changes are collected in commit order, and Q1, Q3 and the interquartile
    range are computed by numpy's default ("linear") percentile method. */
module Quartiles {

  import opened Wrappers
  import Sequencer

  predicate Sorted(s: seq<real>) {
    forall i, j :: 0 <= i <= j < |s| ==> s[i] <= s[j]
  }

  /** Inserts `x` into sorted `s` before the first element not below it. */
  function Insert(x: real, s: seq<real>): (r: seq<real>)
    requires Sorted(s)
    ensures multiset(r) == multiset(s) + multiset{x}
    ensures |r| == |s| + 1
  {
    if |s| == 0 then [x]
    else if x <= s[0] then [x] + s
    else
      assert s == [s[0]] + s[1..];
      [s[0]] + Insert(x, s[1..])
  }

  lemma {:induction false} InsertSorted(x: real, s: seq<real>)
    requires Sorted(s)
    ensures Sorted(Insert(x, s))
  {
    if |s| > 0 && x > s[0] {
      var rest := Insert(x, s[1..]);
      InsertSorted(x, s[1..]);
      forall i | 0 <= i < |rest|
        ensures s[0] <= rest[i]
      {
        assert rest[i] in multiset(rest);
        if rest[i] != x {
          assert rest[i] in multiset(s[1..]);
          var j :| 0 <= j < |s[1..]| && s[1..][j] == rest[i];
          assert s[j + 1] == rest[i];
        }
      }
    }
  }

  /** Ascending sort; numpy sorts the samples before interpolating. */
  function Sort(s: seq<real>): (r: seq<real>)
    ensures Sorted(r)
    ensures multiset(r) == multiset(s)
  {
    if |s| == 0 then []
    else
      assert s == s[..|s| - 1] + [s[|s| - 1]];
      InsertSorted(s[|s| - 1], Sort(s[..|s| - 1]));
      Insert(s[|s| - 1], Sort(s[..|s| - 1]))
  }

  /** An element no smaller than any of a sorted sequence goes at its end
      (when it ties with the first element, every element equals it, so
      putting it in front gives the same sequence). */
  lemma {:induction false} InsertAtEnd(x: real, s: seq<real>)
    requires Sorted(s)
    requires forall i :: 0 <= i < |s| ==> s[i] <= x
    ensures Insert(x, s) == s + [x]
  {
    if |s| > 0 {
      if x <= s[0] {
        forall i | 0 <= i <= |s|
          ensures ([x] + s)[i] == (s + [x])[i]
        {
          if 0 < i < |s| {
            assert s[0] <= s[i - 1] && s[0] <= s[i];
          }
        }
      } else {
        InsertAtEnd(x, s[1..]);
        assert [s[0]] + (s[1..] + [x]) == s + [x];
      }
    }
  }

  /** Sorting an already sorted sequence changes nothing. */
  lemma {:induction false} SortSorted(s: seq<real>)
    requires Sorted(s)
    ensures Sort(s) == s
  {
    if |s| > 0 {
      var init := s[..|s| - 1];
      SortSorted(init);
      InsertAtEnd(s[|s| - 1], init);
      assert init + [s[|s| - 1]] == s;
    }
  }

  /** Position of the lower order statistic for fraction `q`: the floor of
      the virtual index `q * (n - 1)`. */
  function LowerRank(n: nat, q: real): (k: nat)
    requires n > 0 && 0.0 <= q <= 1.0
    ensures k < n
    ensures k as real <= (n - 1) as real * q < k as real + 1.0
  {
    var h := (n - 1) as real * q;
    VirtualIndexBounds((n - 1) as real, q);
    h.Floor
  }

  lemma VirtualIndexBounds(d: real, q: real)
    requires 0.0 <= d && 0.0 <= q <= 1.0
    ensures 0.0 <= d * q <= d
  {
    assert d * q <= d * 1.0;
  }

  /** The upper neighbour of rank `k`, clipped to the last index. */
  function UpperRank(n: nat, k: nat): (j: nat)
    requires k < n
    ensures k <= j < n
  {
    if k + 1 < n then k + 1 else n - 1
  }

  lemma ScaledBetween(t: real, d: real)
    requires 0.0 <= t <= 1.0 && 0.0 <= d
    ensures 0.0 <= t * d <= d
  {
  }

  lemma MulNonNegative(a: real, b: real)
    requires 0.0 <= a && 0.0 <= b
    ensures 0.0 <= a * b
  {
  }

  /** numpy's linear percentile at fraction `q` (0.25 for Q1, 0.75 for Q3)
      of a sorted, non-empty sample: interpolate between the order
      statistics either side of the virtual index `q * (n - 1)`. */
  function Percentile(s: seq<real>, q: real): (r: real)
    requires |s| > 0 && Sorted(s) && 0.0 <= q <= 1.0
    ensures s[LowerRank(|s|, q)] <= r <= s[UpperRank(|s|, LowerRank(|s|, q))]
  {
    var k := LowerRank(|s|, q);
    var j := UpperRank(|s|, k);
    var t := (|s| - 1) as real * q - k as real;
    ScaledBetween(t, s[j] - s[k]);
    s[k] + t * (s[j] - s[k])
  }

  /** A larger fraction never gives a smaller percentile. */
  lemma PercentileMonotone(s: seq<real>, q: real, q': real)
    requires |s| > 0 && Sorted(s) && 0.0 <= q <= q' <= 1.0
    ensures Percentile(s, q) <= Percentile(s, q')
  {
    var n := |s|;
    var h, h' := (n - 1) as real * q, (n - 1) as real * q';
    MulNonNegative((n - 1) as real, q' - q);
    assert h <= h';
    var k, k' := LowerRank(n, q), LowerRank(n, q');
    assert k as real <= h < k as real + 1.0;
    assert k' as real <= h' < k' as real + 1.0;
    if k == k' {
      var j := UpperRank(n, k);
      var t, t' := h - k as real, h' - k as real;
      var d := s[j] - s[k];
      assert 0.0 <= d && t <= t';
      MulNonNegative(t' - t, d);
      assert t * d <= t' * d;
      assert Percentile(s, q) == s[k] + t * d;
      assert Percentile(s, q') == s[k] + t' * d;
    } else {
      assert k < k';
      assert UpperRank(n, k) == k + 1;
    }
  }

  /** When the virtual index `q * (n - 1)` is a whole number, the percentile
      is that order statistic itself. */
  lemma PercentileAtWholeIndex(s: seq<real>, q: real, k: nat)
    requires |s| > 0 && Sorted(s) && 0.0 <= q <= 1.0
    requires (|s| - 1) as real * q == k as real
    ensures k < |s| && Percentile(s, q) == s[k]
  {
    assert LowerRank(|s|, q) == k;
  }

  /** The defined percentage changes, in commit order. */
  function Samples(rs: seq<Sequencer.CommitRecord>): (xs: seq<real>)
    ensures |xs| <= |rs|
    ensures forall i :: 0 <= i < |rs| && rs[i].pct.Some? ==> rs[i].pct.value in xs
    ensures forall x :: x in xs ==> exists i :: 0 <= i < |rs| && rs[i].pct == Some(x)
  {
    if |rs| == 0 then []
    else
      var last := rs[|rs| - 1];
      var xs := Samples(rs[..|rs| - 1]);
      assert forall i :: 0 <= i < |rs| - 1 ==> rs[..|rs| - 1][i] == rs[i];
      match last.pct
      case Some(p) => xs + [p]
      case None => xs
  }

  /** Collecting samples respects concatenation, so they keep commit order. */
  lemma {:induction false} SamplesAppend(a: seq<Sequencer.CommitRecord>, b: seq<Sequencer.CommitRecord>)
    ensures Samples(a + b) == Samples(a) + Samples(b)
    decreases |b|
  {
    if |b| == 0 {
      assert a + b == a;
    } else {
      SamplesAppend(a, b[..|b| - 1]);
      assert (a + b)[..|a + b| - 1] == a + b[..|b| - 1];
      assert (a + b)[|a + b| - 1] == b[|b| - 1];
    }
  }

  /** The quartile part of the statistics of a run. */
  datatype Summary = Summary(samples: seq<real>, q1: real, q3: real, iqr: real)

  const Q1Fraction: real := 0.25
  const Q3Fraction: real := 0.75

  /** Q1, Q3 and their spread over a list of samples, defaulting to 0 when
      there are none. */
  function Summarize(xs: seq<real>): (r: Summary)
    ensures r.samples == xs
    ensures r.iqr == r.q3 - r.q1
    ensures r.q1 <= r.q3 && r.iqr >= 0.0
    ensures |xs| == 0 ==> r.q1 == 0.0 && r.q3 == 0.0 && r.iqr == 0.0
    ensures |xs| > 0 ==>
      (exists i :: 0 <= i < |xs| && xs[i] <= r.q1) &&
      (exists i :: 0 <= i < |xs| && r.q3 <= xs[i])
    ensures |xs| > 0 ==>
      r.q1 == Percentile(Sort(xs), Q1Fraction) && r.q3 == Percentile(Sort(xs), Q3Fraction)
  {
    if |xs| == 0 then Summary(xs, 0.0, 0.0, 0.0)
    else
      var sorted := Sort(xs);
      var q1 := Percentile(sorted, Q1Fraction);
      var q3 := Percentile(sorted, Q3Fraction);
      PercentileMonotone(sorted, Q1Fraction, Q3Fraction);
      SortedEnds(xs);
      Summary(xs, q1, q3, q3 - q1)
  }

  /** The statistics of a run: none at all for an empty run (`calculate_statistics`
      returns `{}`), otherwise the samples and their
      quartiles. */
  function Statistics(rs: seq<Sequencer.CommitRecord>): (r: Option<Summary>)
    ensures r.None? <==> |rs| == 0
    ensures r.Some? ==> r.value == Summarize(Samples(rs))
    ensures r.Some? ==>
      && r.value.samples == Samples(rs)
      && r.value.iqr == r.value.q3 - r.value.q1
      && r.value.q1 <= r.value.q3
    ensures r.Some? && |Samples(rs)| == 0 ==> r.value.q1 == 0.0 && r.value.q3 == 0.0
    ensures r.Some? && |Samples(rs)| > 0 ==>
      && r.value.q1 == Percentile(Sort(Samples(rs)), Q1Fraction)
      && r.value.q3 == Percentile(Sort(Samples(rs)), Q3Fraction)
    ensures r.Some? && (forall i :: 0 <= i < |rs| && rs[i].pct.Some? ==> rs[i].pct.value >= 0.0) ==>
      0.0 <= r.value.q1
  {
    if |rs| == 0 then None
    else
      var s := Summarize(Samples(rs));
      LowerQuartileNonNegative(rs, s);
      Some(s)
  }

  /** When no record has a negative percentage, neither is Q1 negative: it
      is at least one of the samples. */
  lemma LowerQuartileNonNegative(rs: seq<Sequencer.CommitRecord>, s: Summary)
    requires s == Summarize(Samples(rs))
    ensures (forall i :: 0 <= i < |rs| && rs[i].pct.Some? ==> rs[i].pct.value >= 0.0) ==> 0.0 <= s.q1
  {
    var xs := Samples(rs);
    if |xs| > 0 && forall i :: 0 <= i < |rs| && rs[i].pct.Some? ==> rs[i].pct.value >= 0.0 {
      var k :| 0 <= k < |xs| && xs[k] <= s.q1;
      assert xs[k] in xs;
      var i :| 0 <= i < |rs| && rs[i].pct == Some(xs[k]);
    }
  }

  /** The first and last elements of the sorted samples are samples. */
  lemma SortedEnds(xs: seq<real>)
    requires |xs| > 0
    ensures |Sort(xs)| == |xs|
    ensures Sort(xs)[0] in xs && Sort(xs)[|xs| - 1] in xs
  {
    var s := Sort(xs);
    assert |s| == |multiset(s)| == |multiset(xs)| == |xs|;
    assert s[0] in multiset(s);
    assert s[|s| - 1] in multiset(s);
  }

  /** A single sample is both quartiles, so the spread is zero. */
  lemma SingleSample(rs: seq<Sequencer.CommitRecord>)
    requires |Samples(rs)| == 1
    ensures Statistics(rs).Some?
    ensures Statistics(rs).value.q1 == Samples(rs)[0] == Statistics(rs).value.q3
    ensures Statistics(rs).value.iqr == 0.0
  {
    var xs := Samples(rs);
    SortedEnds(xs);
    assert Sort(xs) == xs;
    PercentileAtWholeIndex(Sort(xs), Q1Fraction, 0);
    PercentileAtWholeIndex(Sort(xs), Q3Fraction, 0);
  }

  /** numpy's quartiles of two samples `a <= b`: a quarter and three
      quarters of the way from `a` to `b`. */
  lemma QuartilesOfTwo(a: real, b: real)
    requires a <= b
    ensures Sorted([a, b])
    ensures Percentile([a, b], Q1Fraction) == a + 0.25 * (b - a)
    ensures Percentile([a, b], Q3Fraction) == a + 0.75 * (b - a)
  {
    assert LowerRank(2, Q1Fraction) == 0;
    assert LowerRank(2, Q3Fraction) == 0;
  }

  /** numpy's quartiles of three samples `a <= b <= c`: Q1 midway from `a`
      to `b`, Q3 midway from `b` to `c`. */
  lemma QuartilesOfThree(a: real, b: real, c: real)
    requires a <= b <= c
    ensures Sorted([a, b, c])
    ensures Percentile([a, b, c], Q1Fraction) == a + 0.5 * (b - a)
    ensures Percentile([a, b, c], Q3Fraction) == b + 0.5 * (c - b)
  {
    assert LowerRank(3, Q1Fraction) == 0;
    assert LowerRank(3, Q3Fraction) == 1;
  }

  /** With samples already in ascending order the quartiles are read
      directly off the samples, since sorting leaves them unchanged. */
  lemma StatisticsOfAscending(rs: seq<Sequencer.CommitRecord>, xs: seq<real>)
    requires |rs| > 0 && Samples(rs) == xs && |xs| > 0 && Sorted(xs)
    ensures Statistics(rs) == Some(Summarize(xs))
    ensures Summarize(xs).q1 == Percentile(xs, Q1Fraction)
    ensures Summarize(xs).q3 == Percentile(xs, Q3Fraction)
  {
    SortSorted(xs);
  }

  lemma StatisticsOfTwo(rs: seq<Sequencer.CommitRecord>, a: real, b: real)
    requires |rs| > 0 && Samples(rs) == [a, b] && a <= b
    ensures Statistics(rs).Some?
    ensures Statistics(rs).value.q1 == a + 0.25 * (b - a)
    ensures Statistics(rs).value.q3 == a + 0.75 * (b - a)
  {
    QuartilesOfTwo(a, b);
    StatisticsOfAscending(rs, [a, b]);
  }

  lemma StatisticsOfThree(rs: seq<Sequencer.CommitRecord>, a: real, b: real, c: real)
    requires |rs| > 0 && Samples(rs) == [a, b, c] && a <= b <= c
    ensures Statistics(rs).Some?
    ensures Statistics(rs).value.q1 == a + 0.5 * (b - a)
    ensures Statistics(rs).value.q3 == b + 0.5 * (c - b)
  {
    QuartilesOfThree(a, b, c);
    StatisticsOfAscending(rs, [a, b, c]);
  }
}
