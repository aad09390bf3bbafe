/**
 * Gap arithmetic on a grid: when every current event time is a whole number of
 * steps from a base, the recorded gaps account for every missing grid point.
 */
module GapGrid {
  import opened Tables
  import opened Collections
  import opened GapIndex

  predicate AtIndex(t: Time, base: Time, step: Time, n: int) {
    t == base + n as real * step
  }

  ghost predicate OnGrid(t: Time, base: Time, step: Time) {
    exists n: int :: AtIndex(t, base, step, n)
  }

  ghost predicate Gridded(times: set<Time>, base: Time, step: Time) {
    forall t | t in times :: OnGrid(t, base, step)
  }

  /** The gaps of a series, as keys of the table. */
  ghost function GapKeys(times: set<Time>, job: JobId, step: Time): set<GapKey> {
    set p, q | p in times && q in times && Adjacent(times, p, q) && Wide(p, q, step) :: GapKey(job, p, q)
  }

  ghost function UnresolvedKeys(gaps: GapTable, job: JobId): set<GapKey> {
    set k | k in gaps && k.job == job && gaps[k].status != Resolved
  }

  /** The sum of estimated_missing over some rows. */
  ghost function Total(keys: set<GapKey>, gaps: GapTable): int
    requires keys <= gaps.Keys
  {
    if keys == {} then 0 else var k := Pick(keys); gaps[k].estimated + Total(keys - {k}, gaps)
  }

  lemma {:induction false} TotalSplits(keys: set<GapKey>, gaps: GapTable, k: GapKey)
    requires keys <= gaps.Keys && k in keys
    ensures Total(keys, gaps) == gaps[k].estimated + Total(keys - {k}, gaps)
  {
    var first := Pick(keys);
    if first != k {
      TotalSplits(keys - {first}, gaps, k);
      TotalSplits(keys - {k}, gaps, first);
      assert keys - {first} - {k} == keys - {k} - {first};
    }
  }

  /** Two grid points are a whole number of steps apart, and the estimate counts what lies between. */
  lemma StepsBetween(p: Time, q: Time, base: Time, step: Time) returns (n: int)
    requires step > 0.0 && p < q && OnGrid(p, base, step) && OnGrid(q, base, step)
    ensures n >= 1 && q - p == n as real * step
    ensures Wide(p, q, step) <==> n >= 2
    ensures Estimate(p, q, step) == n - 1
  {
    var i :| AtIndex(p, base, step, i);
    var j :| AtIndex(q, base, step, j);
    n := j - i;
    DifferenceOfProducts(i as real, j as real, step);
    assert q - p == n as real * step;
    WholeSteps(q - p, n, step);
  }

  lemma DifferenceOfProducts(x: real, y: real, step: Time)
    ensures y * step - x * step == (y - x) * step
  {
  }

  lemma WholeSteps(d: real, n: int, step: Time)
    requires step > 0.0 && d > 0.0 && d == n as real * step
    ensures n >= 1
    ensures d > 1.5 * step <==> n >= 2
    ensures Round(d / step) == n
  {
    QuotientOfProduct(d, n as real, step);
    RoundWhole(n);
    Scaled(n as real, 0.0, step);
    Scaled(n as real, 1.5, step);
    WholeBounds(n);
  }

  lemma WholeBounds(n: int)
    ensures n as real > 0.0 <==> n >= 1
    ensures n as real > 1.5 <==> n >= 2
  {
  }

  lemma RoundWhole(n: int)
    ensures Round(n as real) == n
  {
  }

  lemma Scaled(x: real, y: real, step: Time)
    requires step > 0.0
    ensures x * step > y * step <==> x > y
  {
    ProductSign(x - y, step);
    DifferenceOfProducts(y, x, step);
  }

  lemma ProductSign(x: real, step: Time)
    requires step > 0.0
    ensures x * step > 0.0 <==> x > 0.0
  {
  }

  lemma QuotientOfProduct(d: real, n: real, step: Time)
    requires step > 0.0 && d == n * step
    ensures d / step == n
  {
  }

  predicate Highest(times: set<Time>, m: Time) {
    m in times && forall x | x in times :: x <= m
  }

  predicate Lowest(times: set<Time>, m: Time) {
    m in times && forall x | x in times :: m <= x
  }

  /** Adjacency below the latest time does not depend on it. */
  lemma AdjacentBelow(times: set<Time>, m: Time, a: Time, b: Time)
    requires Highest(times, m) && a in times - {m} && b in times - {m}
    ensures Adjacent(times, a, b) <==> Adjacent(times - {m}, a, b)
  {
    if Adjacent(times - {m}, a, b) {
      forall x | x in times ensures x <= a || b <= x {
        assert x in times - {m} || x == m;
      }
    }
  }

  /** Taking the latest time away takes exactly its own gap away. */
  lemma LatestGap(times: set<Time>, m: Time, p: Time, job: JobId, step: Time)
    requires Highest(times, m) && Highest(times - {m}, p)
    ensures GapKey(job, p, m) !in GapKeys(times - {m}, job, step)
    ensures GapKeys(times, job, step) ==
            GapKeys(times - {m}, job, step) + (if Wide(p, m, step) then {GapKey(job, p, m)} else {})
  {
    var rest := times - {m};
    assert Adjacent(times, p, m) by {
      forall x | x in times ensures x <= p || m <= x {
        assert x in rest || x == m;
      }
    }
    var keys, fewer := GapKeys(times, job, step), GapKeys(rest, job, step);
    forall k | k in keys ensures k in fewer || (Wide(p, m, step) && k == GapKey(job, p, m)) {
      var a, b := k.previous, k.following;
      assert a in rest;
      if b == m {
        assert p <= a;
      } else {
        AdjacentBelow(times, m, a, b);
      }
    }
    forall k | k in fewer ensures k in keys {
      AdjacentBelow(times, m, k.previous, k.following);
    }
  }

  /** The rows of a series' gaps are in the table, and measured. */
  ghost predicate Tabled(gaps: GapTable, job: JobId, step: Time, times: set<Time>)
    requires step > 0.0
  {
    && GapKeys(times, job, step) <= gaps.Keys
    && forall k | k in GapKeys(times, job, step) :: Measured(k, gaps[k], step)
  }

  lemma TotalGrows(gaps: GapTable, job: JobId, step: Time, times: set<Time>, base: Time, m: Time, p: Time)
    returns (n: int)
    requires step > 0.0 && Gridded(times, base, step) && Tabled(gaps, job, step, times)
    requires Highest(times, m) && Highest(times - {m}, p)
    ensures Tabled(gaps, job, step, times - {m})
    ensures m - p == n as real * step
    ensures Total(GapKeys(times, job, step), gaps) == Total(GapKeys(times - {m}, job, step), gaps) + n - 1
  {
    LatestGap(times, m, p, job, step);
    n := StepsBetween(p, m, base, step);
    var keys, key := GapKeys(times, job, step), GapKey(job, p, m);
    if Wide(p, m, step) {
      assert Measured(key, gaps[key], step);
      TotalSplits(keys, gaps, key);
      assert keys - {key} == GapKeys(times - {m}, job, step);
    } else {
      assert keys == GapKeys(times - {m}, job, step);
    }
  }

  /** Conservation: the times on record plus the estimated missing ones fill the grid. */
  lemma {:induction false} GapsFillTheGrid(
    gaps: GapTable, job: JobId, step: Time, times: set<Time>, base: Time, low: Time, high: Time)
    requires step > 0.0 && Gridded(times, base, step) && Tabled(gaps, job, step, times)
    requires Lowest(times, low) && Highest(times, high)
    ensures (|times| + Total(GapKeys(times, job, step), gaps)) as real == (high - low) / step + 1.0
    decreases |times|
  {
    var rest := times - {high};
    if rest == {} {
      assert times == {high};
      assert GapKeys(times, job, step) == {};
    } else {
      var p := Greatest(rest);
      var n := TotalGrows(gaps, job, step, times, base, high, p);
      assert p < high && low in rest;
      GapsFillTheGrid(gaps, job, step, rest, base, low, p);
      SplitQuotient(high, p, low, n, step);
    }
  }

  lemma SplitQuotient(m: Time, p: Time, least: Time, n: int, step: Time)
    requires step > 0.0 && m - p == n as real * step
    ensures (m - least) / step == (p - least) / step + n as real
  {
    var a := (p - least) / step;
    assert a * step == p - least;
    assert (a + n as real) * step == m - least;
  }

  /** An exact index has one measured row per gap. */
  lemma ExactKeys(gaps: GapTable, job: JobId, step: Time, times: set<Time>)
    requires step > 0.0 && Exact(gaps, job, step, times)
    ensures UnresolvedKeys(gaps, job) == GapKeys(times, job, step)
  {
    forall k: GapKey ensures k in UnresolvedKeys(gaps, job) <==> k in GapKeys(times, job, step) {
      if k.job == job {
        assert Unresolved(gaps, k) <==> Adjacent(times, k.previous, k.following) && Wide(k.previous, k.following, step);
        if Unresolved(gaps, k) {
          assert k == GapKey(job, k.previous, k.following);
        }
      }
    }
  }

  /** Conservation, read off the gap table of a job. */
  lemma IndexConservesTheGrid(gaps: GapTable, job: JobId, step: Time, times: set<Time>, base: Time)
    requires step > 0.0 && Exact(gaps, job, step, times) && times != {} && Gridded(times, base, step)
    ensures UnresolvedKeys(gaps, job) <= gaps.Keys
    ensures (|times| + Total(UnresolvedKeys(gaps, job), gaps)) as real
            == (Greatest(times) - Least(times)) / step + 1.0
  {
    ExactKeys(gaps, job, step, times);
    GapsFillTheGrid(gaps, job, step, times, base, Least(times), Greatest(times));
  }

  /** A grid point is within one step of another only if they are the same. */
  lemma OneStepApart(p: Time, q: Time, base: Time, step: Time)
    requires step > 0.0 && p < q && OnGrid(p, base, step) && OnGrid(q, base, step)
    ensures p + step <= q
  {
    var n := StepsBetween(p, q, base, step);
    assert (n as real - 1.0) * step >= 0.0;
  }

  /** The missing ranges enumerate exactly the absent grid points. */
  lemma MissingRangesAreTheHoles(gaps: GapTable, job: JobId, step: Time, times: set<Time>, base: Time, x: Time)
    requires step > 0.0 && Exact(gaps, job, step, times) && times != {} && Gridded(times, base, step)
    requires OnGrid(x, base, step) && Least(times) <= x <= Greatest(times)
    ensures x !in times <==>
            exists k :: k in UnresolvedKeys(gaps, job) && gaps[k].missingStart <= x <= gaps[k].missingEnd
  {
    if x !in times {
      var below := set t | t in times && t < x;
      var above := set t | t in times && t > x;
      assert Least(times) in below && Greatest(times) in above;
      var p, q := Greatest(below), Least(above);
      OneStepApart(p, x, base, step);
      OneStepApart(x, q, base, step);
      forall t | t in times ensures t <= p || q <= t {
        assert t in below || t in above;
      }
      var k := GapKey(job, p, q);
      assert Adjacent(times, p, q) && Wide(p, q, step);
      assert Unresolved(gaps, k) && Measured(k, gaps[k], step);
      assert k in UnresolvedKeys(gaps, job);
    } else {
      forall k | k in UnresolvedKeys(gaps, job) ensures !(gaps[k].missingStart <= x <= gaps[k].missingEnd) {
        assert Unresolved(gaps, k) && Measured(k, gaps[k], step);
        assert Adjacent(times, k.previous, k.following);
      }
    }
  }

  /** On a grid every missing range is a proper one, and holds as many points as estimated. */
  lemma MissingRangeCounts(gaps: GapTable, job: JobId, step: Time, times: set<Time>, base: Time, k: GapKey)
    requires step > 0.0 && Exact(gaps, job, step, times) && Gridded(times, base, step)
    requires k in UnresolvedKeys(gaps, job)
    ensures gaps[k].estimated >= 1
    ensures gaps[k].missingEnd == gaps[k].missingStart + (gaps[k].estimated - 1) as real * step
  {
    assert Unresolved(gaps, k) && Measured(k, gaps[k], step);
    assert Adjacent(times, k.previous, k.following);
    var n := StepsBetween(k.previous, k.following, base, step);
  }
}
