/**
 * The incremental gap index (mining/store.py, _recompute_gaps_incremental): only
 * the neighbourhoods of touched event times are re-evaluated, and the unresolved
 * rows are still exactly the gaps of the whole series.
 */
module GapIndex {
  import opened Options
  import opened Tables
  import opened Collections

  // ----- from scratch

  /** Two neighbouring event times: nothing lies strictly between them. */
  predicate Adjacent(times: set<Time>, p: Time, q: Time) {
    p in times && q in times && p < q && forall x | x in times :: x <= p || q <= x
  }

  predicate Wide(p: Time, q: Time, step: Time) {
    q - p > 1.5 * step
  }

  predicate Unresolved(gaps: GapTable, k: GapKey) {
    k in gaps && gaps[k].status != Resolved
  }

  /** The row of a gap carries the range between its ends, one step in from each. */
  predicate Measured(k: GapKey, g: Gap, step: Time)
    requires step > 0.0
  {
    g.missingStart == k.previous + step && g.missingEnd == k.following - step
    && g.estimated == Estimate(k.previous, k.following, step)
  }

  /** The unresolved rows of a job are its wide neighbouring pairs, and are measured. */
  ghost predicate Exact(gaps: GapTable, job: JobId, step: Time, times: set<Time>)
    requires step > 0.0
  {
    && (forall k: GapKey | k.job == job ::
          Unresolved(gaps, k) <==> Adjacent(times, k.previous, k.following) && Wide(k.previous, k.following, step))
    && (forall k | k in gaps && k.job == job && gaps[k].status != Resolved :: Measured(k, gaps[k], step))
  }

  // ----- the estimate

  /** Python's round: halves go to the even neighbour. */
  function Round(x: real): int {
    var fraction := x - x.Floor as real;
    if fraction < 0.5 || (fraction == 0.5 && x.Floor % 2 == 0) then x.Floor else x.Floor + 1
  }

  function Estimate(p: Time, q: Time, step: Time): int
    requires step > 0.0
  {
    var e := Round((q - p) / step) - 1;
    if e < 0 then 0 else e
  }

  /** The test the code makes before it records a pair. */
  predicate Recorded(p: Time, q: Time, step: Time)
    requires step > 0.0
  {
    Estimate(p, q, step) > 0 && !(q - p <= step * 1.5)
  }

  /** Rounding never hides a wide pair: the two-part test is the one comparison. */
  lemma RecordedIsWide(p: Time, q: Time, step: Time)
    requires step > 0.0
    ensures Recorded(p, q, step) <==> Wide(p, q, step)
  {
    if Wide(p, q, step) {
      var ratio := (q - p) / step;
      assert ratio * step == q - p;
      assert ratio > 1.5;
      assert Round(ratio) >= 2;
    }
  }

  /** Rounding goes to the nearest integer, and from the middle to the even one. */
  lemma RoundIsNearest(x: real)
    ensures x - 0.5 <= Round(x) as real <= x + 0.5
    ensures x - x.Floor as real == 0.5 ==> Round(x) % 2 == 0
  {
  }

  /** The estimate of a wide pair is the nearest whole number of steps between its ends, less one. */
  lemma EstimateIsNearest(p: Time, q: Time, step: Time)
    requires step > 0.0 && Wide(p, q, step)
    ensures (q - p) / step - 1.5 <= Estimate(p, q, step) as real <= (q - p) / step - 0.5
    ensures Estimate(p, q, step) >= 1
  {
    RoundIsNearest((q - p) / step);
    RecordedIsWide(p, q, step);
  }

  /** The missing range is a proper range exactly from two steps on. */
  lemma MissingRangeExact(k: GapKey, g: Gap, step: Time)
    requires step > 0.0 && Measured(k, g, step)
    ensures g.missingStart <= g.missingEnd <==> k.following - k.previous >= 2.0 * step
  {
  }

  // ----- neighbourhoods

  lemma {:induction false} HasGreatest(s: set<Time>)
    requires s != {}
    ensures exists m :: m in s && forall x | x in s :: x <= m
  {
    var x := Pick(s);
    if s - {x} != {} {
      HasGreatest(s - {x});
      var m :| m in s - {x} && forall y | y in s - {x} :: y <= m;
      var top := if x > m then x else m;
      assert top in s && forall y | y in s :: y <= top by {
        forall y | y in s ensures y <= top { assert y == x || y in s - {x}; }
      }
    } else {
      assert s == {x};
    }
  }

  lemma {:induction false} HasLeast(s: set<Time>)
    requires s != {}
    ensures exists m :: m in s && forall x | x in s :: m <= x
  {
    var x := Pick(s);
    if s - {x} != {} {
      HasLeast(s - {x});
      var m :| m in s - {x} && forall y | y in s - {x} :: m <= y;
      var bottom := if x < m then x else m;
      assert bottom in s && forall y | y in s :: bottom <= y by {
        forall y | y in s ensures bottom <= y { assert y == x || y in s - {x}; }
      }
    } else {
      assert s == {x};
    }
  }

  function Greatest(s: set<Time>): (m: Time)
    requires s != {}
    ensures m in s && forall x | x in s :: x <= m
  {
    HasGreatest(s);
    var m :| m in s && forall x | x in s :: x <= m;
    m
  }

  function Least(s: set<Time>): (m: Time)
    requires s != {}
    ensures m in s && forall x | x in s :: m <= x
  {
    HasLeast(s);
    var m :| m in s && forall x | x in s :: m <= x;
    m
  }

  /** SELECT DISTINCT ... ORDER BY event_time_sort DESC LIMIT 2. */
  function TopTwo(s: set<Time>): set<Time> {
    if s == {} then {}
    else if s == {Greatest(s)} then s
    else {Greatest(s), Greatest(s - {Greatest(s)})}
  }

  /** SELECT DISTINCT ... ORDER BY event_time_sort LIMIT 2. */
  function BottomTwo(s: set<Time>): set<Time> {
    if s == {} then {}
    else if s == {Least(s)} then s
    else {Least(s), Least(s - {Least(s)})}
  }

  function Neighbourhood(times: set<Time>, t: Time): set<Time> {
    TopTwo(set x | x in times && x <= t) + BottomTwo(set x | x in times && x >= t)
  }

  /** zip(sorted(n), sorted(n)[1:]). */
  function AdjacentPairs(n: set<Time>): set<(Time, Time)> {
    set p, q | p in n && q in n && Adjacent(n, p, q) :: (p, q)
  }

  function LocalPairs(times: set<Time>, affected: set<Time>): set<(Time, Time)> {
    set t, pair | t in affected && pair in AdjacentPairs(Neighbourhood(times, t)) :: pair
  }

  // ----- the recomputation

  function Touched(gaps: GapTable, job: JobId, affected: set<Time>): set<GapKey> {
    set k | k in gaps && k.job == job && gaps[k].status != Resolved
            && exists t | t in affected :: k.previous <= t <= k.following
  }

  function FoundKeys(job: JobId, step: Time, pairs: set<(Time, Time)>): set<GapKey>
    requires step > 0.0
  {
    set pair | pair in pairs && Recorded(pair.0, pair.1, step) :: GapKey(job, pair.0, pair.1)
  }

  /** INSERT ... ON CONFLICT DO UPDATE: a queued backfill stays queued, anything else becomes open. */
  function Upserted(gaps: GapTable, k: GapKey, step: Time): Gap
    requires step > 0.0
  {
    Gap(k.previous + step, k.following - step, Estimate(k.previous, k.following, step),
        if k in gaps && gaps[k].status == BackfillQueued then BackfillQueued else Open)
  }

  function UpsertAll(gaps: GapTable, keys: set<GapKey>, step: Time): GapTable
    requires step > 0.0
  {
    map k | k in gaps.Keys + keys :: if k in keys then Upserted(gaps, k, step) else gaps[k]
  }

  function ResolveAll(gaps: GapTable, keys: set<GapKey>): GapTable {
    map k | k in gaps :: if k in keys then gaps[k].(status := Resolved) else gaps[k]
  }

  function Recomputed(gaps: GapTable, job: JobId, step: Option<Time>, times: set<Time>, affected: set<Time>): GapTable {
    if step.None? || step.value <= 0.0 || affected == {} then gaps
    else
      var found := FoundKeys(job, step.value, LocalPairs(times, affected));
      ResolveAll(UpsertAll(gaps, found, step.value), Touched(gaps, job, affected) - found)
  }

  // ----- why looking nearby is enough

  /** A pair that is adjacent in a neighbourhood is adjacent in the series. */
  lemma NeighbourhoodIsContiguous(times: set<Time>, t: Time, p: Time, q: Time)
    requires Adjacent(Neighbourhood(times, t), p, q)
    ensures Adjacent(times, p, q)
  {
    var below := set x | x in times && x <= t;
    var above := set x | x in times && x >= t;
    var n := Neighbourhood(times, t);
    assert n <= times;
    forall x | x in times && x !in n ensures x <= p || q <= x {
      if x <= t {
        assert x in below && x !in TopTwo(below);
        TopTwoAreLast(below, x);
      } else {
        assert x in above && x !in BottomTwo(above);
        BottomTwoAreFirst(above, x);
      }
    }
  }

  lemma TopTwoAreLast(s: set<Time>, x: Time)
    requires x in s && x !in TopTwo(s)
    ensures |TopTwo(s)| == 2 && forall y | y in TopTwo(s) :: x < y
  {
    assert x in s - {Greatest(s)};
  }

  lemma BottomTwoAreFirst(s: set<Time>, x: Time)
    requires x in s && x !in BottomTwo(s)
    ensures |BottomTwo(s)| == 2 && forall y | y in BottomTwo(s) :: y < x
  {
    assert x in s - {Least(s)};
  }

  /** A neighbouring pair around t, ends included, is seen from t. */
  lemma NeighbourhoodSees(times: set<Time>, t: Time, p: Time, q: Time)
    requires Adjacent(times, p, q) && p <= t <= q
    ensures (p, q) in AdjacentPairs(Neighbourhood(times, t))
  {
    var below := set x | x in times && x <= t;
    var above := set x | x in times && x >= t;
    assert p in below && q in above;
    if t == q {
      assert q in below;
      assert Greatest(below) == q;
      assert p in below - {q};
      assert Greatest(below - {q}) == p;
    } else {
      assert Greatest(below) == p;
      if t == p {
        assert p in above;
        assert Least(above) == p;
        assert q in above - {p};
        assert Least(above - {p}) == q;
      } else {
        assert Least(above) == q;
      }
    }
    assert p in Neighbourhood(times, t) && q in Neighbourhood(times, t);
    assert Neighbourhood(times, t) <= times;
  }

  /** Every point where the two series differ was handed to the recomputation. */
  ghost predicate Covers(affected: set<Time>, before: set<Time>, after: set<Time>) {
    forall x: Time | (x in before) != (x in after) :: x in affected
  }

  /** A pair that became adjacent has a touched time between its ends. */
  lemma NewPairIsTouched(before: set<Time>, after: set<Time>, affected: set<Time>, p: Time, q: Time)
    requires Covers(affected, before, after)
    requires Adjacent(after, p, q) && !Adjacent(before, p, q)
    ensures exists t :: t in affected && p <= t <= q
  {
    if p !in before {
      assert p in affected;
    } else if q !in before {
      assert q in affected;
    } else {
      var x :| x in before && !(x <= p || q <= x);
      assert x !in after && x in affected;
    }
  }

  lemma LocalPairsAreExact(times: set<Time>, affected: set<Time>, p: Time, q: Time)
    ensures (p, q) in LocalPairs(times, affected) ==> Adjacent(times, p, q)
    ensures Adjacent(times, p, q) && (exists t :: t in affected && p <= t <= q) ==> (p, q) in LocalPairs(times, affected)
  {
    if (p, q) in LocalPairs(times, affected) {
      var t :| t in affected && (p, q) in AdjacentPairs(Neighbourhood(times, t));
      NeighbourhoodIsContiguous(times, t, p, q);
    }
    if Adjacent(times, p, q) && exists t :: t in affected && p <= t <= q {
      var t :| t in affected && p <= t <= q;
      NeighbourhoodSees(times, t, p, q);
    }
  }

  /** One row of the recomputed index, read against the new series. */
  lemma RowIsExact(gaps: GapTable, job: JobId, step: Time, before: set<Time>, after: set<Time>,
                   affected: set<Time>, k: GapKey)
    requires step > 0.0 && Exact(gaps, job, step, before) && Covers(affected, before, after)
    requires affected != {} && k.job == job
    ensures Unresolved(Recomputed(gaps, job, Some(step), after, affected), k)
            <==> Adjacent(after, k.previous, k.following) && Wide(k.previous, k.following, step)
  {
    var p, q := k.previous, k.following;
    var pairs := LocalPairs(after, affected);
    var found := FoundKeys(job, step, pairs);
    LocalPairsAreExact(after, affected, p, q);
    RecordedIsWide(p, q, step);
    assert k in found <==> (p, q) in pairs && Recorded(p, q, step) by {
      if (p, q) in pairs && Recorded(p, q, step) {
        assert (p, q).0 == p && (p, q).1 == q;
        assert GapKey(job, p, q) == k;
      }
    }
    if Adjacent(after, p, q) && !Adjacent(before, p, q) {
      NewPairIsTouched(before, after, affected, p, q);
    }
    if Adjacent(before, p, q) && !Adjacent(after, p, q) {
      OldPairIsTouched(before, after, affected, p, q);
    }
  }

  /** A pair that stopped being adjacent has a touched time between its ends. */
  lemma OldPairIsTouched(before: set<Time>, after: set<Time>, affected: set<Time>, p: Time, q: Time)
    requires Covers(affected, before, after)
    requires Adjacent(before, p, q) && !Adjacent(after, p, q)
    ensures exists t :: t in affected && p <= t <= q
  {
    assert Covers(affected, after, before);
    NewPairIsTouched(after, before, affected, p, q);
  }

  /** The incremental index is the from-scratch index. */
  lemma IncrementalIsExact(gaps: GapTable, job: JobId, step: Time, before: set<Time>, after: set<Time>, affected: set<Time>)
    requires step > 0.0 && Exact(gaps, job, step, before) && Covers(affected, before, after)
    ensures Exact(Recomputed(gaps, job, Some(step), after, affected), job, step, after)
  {
    if affected == {} {
      assert forall x: Time :: x in before <==> x in after;
      assert before == after;
    } else {
      forall k: GapKey | k.job == job
        ensures Unresolved(Recomputed(gaps, job, Some(step), after, affected), k)
                <==> Adjacent(after, k.previous, k.following) && Wide(k.previous, k.following, step)
      {
        RowIsExact(gaps, job, step, before, after, affected, k);
      }
    }
  }

  lemma OtherJobsKept(gaps: GapTable, job: JobId, step: Option<Time>, times: set<Time>, affected: set<Time>, k: GapKey)
    requires k.job != job
    ensures k in Recomputed(gaps, job, step, times, affected) <==> k in gaps
    ensures k in gaps ==> Recomputed(gaps, job, step, times, affected)[k] == gaps[k]
  {
  }

  /** A gap that stays open keeps a queued backfill, a new or reopened one is open, and one that is gone is resolved. */
  lemma StatusOutcome(gaps: GapTable, job: JobId, step: Time, times: set<Time>, affected: set<Time>, k: GapKey)
    requires step > 0.0
    ensures var after := Recomputed(gaps, job, Some(step), times, affected);
            && (Unresolved(after, k) ==>
                  after[k].status == if k in gaps && gaps[k].status == BackfillQueued then BackfillQueued else Open)
            && (k in gaps && !Unresolved(after, k) ==> k in after && after[k] == gaps[k].(status := Resolved))
  {
  }

  /** Rows with no touched time between their ends are left as they were. */
  lemma DistantRowsKept(gaps: GapTable, job: JobId, step: Time, before: set<Time>, after: set<Time>,
                        affected: set<Time>, k: GapKey)
    requires step > 0.0 && Exact(gaps, job, step, before) && Covers(affected, before, after)
    requires k in gaps && k.job == job && forall t | t in affected :: t < k.previous || k.following < t
    ensures k in Recomputed(gaps, job, Some(step), after, affected)
    ensures Recomputed(gaps, job, Some(step), after, affected)[k] == gaps[k]
  {
    var p, q := k.previous, k.following;
    var found := FoundKeys(job, step, LocalPairs(after, affected));
    assert k !in Touched(gaps, job, affected);
    if k in found {
      LocalPairsAreExact(after, affected, p, q);
      RecordedIsWide(p, q, step);
      if !Adjacent(before, p, q) {
        NewPairIsTouched(before, after, affected, p, q);
      }
      assert Unresolved(gaps, k);
    }
  }
}
