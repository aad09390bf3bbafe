/** Bounded bypass: a due job is claimed after at most one claim of each other job. */
module Fairness {
  import opened Options
  import opened Tables
  import opened Collections
  import opened Transactions
  import opened Protocol
  import opened LeaseInvariants

  /** The other jobs that may still be claimed before a job due since `t`. */
  ghost function Ahead(jobs: map<JobId, Job>, id: JobId, t: Time): set<JobId> {
    set k | k in jobs && k != id && Claimable(jobs[k].status) && jobs[k].nextRunAt <= t
  }

  /** The job waits: due, unpaused, with a provider every claim of the run admits; nobody touches its row. */
  ghost predicate Waits(s: Sys, trace: seq<Moment>, id: JobId, row: Job)
    requires Possible(s, trace)
    decreases |trace|
  {
    && id in s.db.jobs && s.db.jobs[id] == row
    && (trace == [] ||
        (&& Due(row, trace[0].now)
         && (trace[0].event.Claim? ==> row.def.provider in trace[0].event.allowed)
         && Waits(Step(s, trace[0]), trace[1..], id, row)))
  }

  /** Every event of the run happens after `t`. */
  predicate AllAfter(trace: seq<Moment>, t: Time) {
    forall i | 0 <= i < |trace| :: t < trace[i].now
  }

  /** The clock advances from event to event. */
  predicate Increasing(trace: seq<Moment>) {
    forall i, j | 0 <= i < j < |trace| :: trace[i].now < trace[j].now
  }

  /** The jobs claimed in a run, in order. */
  function Picks(trace: seq<Moment>): seq<JobId> {
    if trace == [] then []
    else
      (if trace[0].event.Claim? && trace[0].event.a.pick.Some? then [trace[0].event.a.pick.value] else [])
      + Picks(trace[1..])
  }

  /** The admission loop picks somebody, and nobody later than a due job that is not refused. */
  lemma {:induction false} PickIsNoLater(db: Db, now: Time, allowed: set<ProviderId>, a: Admission, id: JobId)
    requires Admits(db, now, allowed, a) && id in db.jobs && Due(db.jobs[id], now) && db.jobs[id].def.provider in allowed
    ensures a.pick.Some? && a.pick.value in db.jobs && db.jobs[a.pick.value].nextRunAt <= db.jobs[id].nextRunAt
    decreases |a.refused|
  {
    if a.refused != [] {
      var first, rest := a.refused[0], a.(refused := a.refused[1..]);
      PickIsNoLater(Refuse(db, first), now, allowed, rest, id);
    }
  }

  /** No claim, and no event after `t`, puts a job in front of one that is due since `t`. */
  lemma AheadStep(s: Sys, m: Moment, id: JobId, t: Time)
    requires Enabled(s, m)
    ensures m.event.Claim? || t < m.now ==> Ahead(DbStep(s, m).jobs, id, t) <= Ahead(s.db.jobs, id, t)
    ensures m.event.Claim? ==> DbStep(s, m).jobs.Keys == s.db.jobs.Keys
    ensures m.event.Claim? && m.event.a.pick.Some? ==> m.event.a.pick.value !in Ahead(DbStep(s, m).jobs, id, t)
  {
    if m.event.Claim? {
      ClaimHasEffect(s.db, m.event.w, m.now, m.event.seconds, m.event.allowed, m.event.a);
    } else {
      NoClaimStep(s, m);
    }
  }

  /** While a due job waits, every claim takes somebody ahead of it, and nobody twice. */
  lemma {:induction false} NobodyPassesTwice(s: Sys, trace: seq<Moment>, id: JobId, row: Job)
    requires Possible(s, trace) && Waits(s, trace, id, row) && AllAfter(trace, row.nextRunAt)
    ensures Distinct(Picks(trace))
    ensures forall k | k in Picks(trace) :: k in Ahead(s.db.jobs, id, row.nextRunAt)
    decreases |trace|
  {
    if trace != [] {
      var m, rest, t := trace[0], trace[1..], row.nextRunAt;
      var next := Step(s, m);
      NobodyPassesTwice(next, rest, id, row);
      if m.event.Claim? {
        ClaimTakesAhead(s, m, id, row);
        assert Picks(trace) == [m.event.a.pick.value] + Picks(rest);
      } else {
        AheadStep(s, m, id, t);
        assert Picks(trace) == Picks(rest);
      }
    }
  }

  /** A claim while a due job waits: it takes somebody out of the jobs ahead. */
  lemma ClaimTakesAhead(s: Sys, m: Moment, id: JobId, row: Job)
    requires Enabled(s, m) && m.event.Claim? && Due(row, m.now) && row.def.provider in m.event.allowed
    requires id in s.db.jobs && s.db.jobs[id] == row
    requires id in DbStep(s, m).jobs && DbStep(s, m).jobs[id] == row
    ensures var t, pick, after := row.nextRunAt, m.event.a.pick, DbStep(s, m).jobs;
            && pick.Some? && pick.value in Ahead(s.db.jobs, id, t) && pick.value !in Ahead(after, id, t)
            && Ahead(after, id, t) <= Ahead(s.db.jobs, id, t) && after.Keys == s.db.jobs.Keys
  {
    AheadStep(s, m, id, row.nextRunAt);
    PickIsNoLater(s.db, m.now, m.event.allowed, m.event.a, id);
    ClaimHasEffect(s.db, m.event.w, m.now, m.event.seconds, m.event.allowed, m.event.a);
  }

  /** A waiting job is passed at most once by each other job: no starvation. */
  lemma BoundedBypass(s: Sys, trace: seq<Moment>, id: JobId, row: Job)
    requires trace != [] && Possible(s, trace) && Waits(s, trace, id, row) && Increasing(trace)
    ensures Distinct(Picks(trace)) && id !in Picks(trace)
    ensures |Picks(trace)| <= |Step(s, trace[0]).db.jobs| - 1
  {
    var m, rest := trace[0], trace[1..];
    var next := Step(s, m);
    NobodyPassesTwice(next, rest, id, row);
    if m.event.Claim? {
      ClaimTakesAhead(s, m, id, row);
      assert Picks(trace) == [m.event.a.pick.value] + Picks(rest);
    } else {
      assert Picks(trace) == Picks(rest);
    }
    var others := next.db.jobs.Keys - {id};
    DistinctFits(Picks(trace), others);
  }
}
