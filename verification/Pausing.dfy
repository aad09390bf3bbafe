/** Pausing over every run: a pause request is never lost, and stops a job after at most one more page. */
module Pausing {
  import opened Options
  import opened Tables
  import opened Transactions
  import opened Protocol
  import opened LeaseInvariants

  /** The job is paused, or will be at its next page boundary. */
  predicate Halted(db: Db, id: JobId) {
    id in db.jobs && (db.jobs[id].status == Paused || db.jobs[id].pauseRequested)
  }

  predicate Resumes(m: Moment, id: JobId) {
    m.event.Resume? && m.event.id == id
  }

  /** The API, and the recovery of leases. */
  lemma HaltApi(s: Sys, m: Moment, id: JobId)
    requires Enabled(s, m) && Halted(s.db, id) && !Resumes(m, id)
    requires m.event.Create? || m.event.Pause? || m.event.Resume? || m.event.RunJobNow? || m.event.AskRefill? || m.event.Recover?
    ensures Halted(DbStep(s, m), id)
  {
  }

  lemma HaltWorker(s: Sys, m: Moment, id: JobId)
    requires Enabled(s, m) && LeasesOk(s.db) && Halted(s.db, id)
    requires m.event.Begin? || m.event.Move? || m.event.Beat? || m.event.Retry? || m.event.Block? || m.event.Release?
    ensures Halted(DbStep(s, m), id)
  {
    assert LeaseOk(s.db.jobs[id]);
  }

  lemma HaltCommit(s: Sys, m: Moment, id: JobId)
    requires Enabled(s, m) && m.event.Commit? && Halted(s.db, id)
    ensures Halted(DbStep(s, m), id)
  {
    var c := CommitOf(m.event.w, s.workers[m.event.w], m.event);
    if MayCommit(s.db, c) {
      CommitRow(s.db, c, m.now);
    }
  }

  lemma HaltClaim(s: Sys, m: Moment, id: JobId)
    requires Enabled(s, m) && m.event.Claim? && Halted(s.db, id)
    ensures m.event.a.pick != Some(id) && id in DbStep(s, m).jobs && DbStep(s, m).jobs[id] == s.db.jobs[id]
  {
    ClaimHasEffect(s.db, m.event.w, m.now, m.event.seconds, m.event.allowed, m.event.a);
  }

  lemma HaltStep(s: Sys, m: Moment, id: JobId)
    requires Enabled(s, m) && LeasesOk(s.db) && Halted(s.db, id) && !Resumes(m, id)
    ensures Halted(DbStep(s, m), id)
    ensures m.event.Claim? ==> m.event.a.pick != Some(id)
  {
    match m.event
    case Claim(_, _, _, _, _) => HaltClaim(s, m, id);
    case Commit(_, _, _, _, _, _) => HaltCommit(s, m, id);
    case Start(_) =>
    case Crash(_) =>
    case Create(_, _, _, _, _, _) => HaltApi(s, m, id);
    case Pause(_) => HaltApi(s, m, id);
    case Resume(_) => HaltApi(s, m, id);
    case RunJobNow(_) => HaltApi(s, m, id);
    case AskRefill(_, _, _, _) => HaltApi(s, m, id);
    case Recover => HaltApi(s, m, id);
    case _ => HaltWorker(s, m, id);
  }

  /** A pause stands until somebody resumes the job, and no claim picks it meanwhile. */
  lemma {:induction false} PauseStands(s: Sys, trace: seq<Moment>, id: JobId)
    requires LeaseInv(s) && Possible(s, trace) && Halted(s.db, id)
    requires forall i | 0 <= i < |trace| :: !Resumes(trace[i], id)
    ensures Halted(After(s, trace).db, id)
    ensures forall i | 0 <= i < |trace| && trace[i].event.Claim? :: trace[i].event.a.pick != Some(id)
    decreases |trace|
  {
    if trace != [] {
      HaltStep(s, trace[0], id);
      LeaseInvStep(s, trace[0]);
      PauseStands(Step(s, trace[0]), trace[1..], id);
      forall i | 0 <= i < |trace| && trace[i].event.Claim? ensures trace[i].event.a.pick != Some(id) {
        assert i > 0 ==> trace[i] == trace[1..][i - 1];
      }
    }
  }

  /** After pause_job returns, the job is halted. */
  lemma PauseHalts(db: Db, id: JobId, now: Time)
    ensures PauseJob(db, id, now).Ok? ==> Halted(PauseJob(db, id, now).value, id)
  {
  }

  /** The pages of a job, of either lane. */
  function PagesOfJob(pages: seq<Page>, id: JobId): nat {
    if pages == [] then 0
    else PagesOfJob(pages[..|pages| - 1], id) + (if pages[|pages| - 1].job == id then 1 else 0)
  }

  lemma PagesOfJobAppend(pages: seq<Page>, p: Page, id: JobId)
    ensures PagesOfJob(pages + [p], id) == PagesOfJob(pages, id) + (if p.job == id then 1 else 0)
  {
    assert (pages + [p])[..|pages|] == pages;
  }

  lemma HaltedPageStep(s: Sys, m: Moment, id: JobId)
    requires Enabled(s, m) && LeaseInv(s) && Halted(s.db, id) && !Resumes(m, id)
    ensures id in DbStep(s, m).jobs
    ensures s.db.jobs[id].hold.owner.None? ==> DbStep(s, m).jobs[id].hold.owner.None?
    ensures PagesOfJob(DbStep(s, m).pages, id) == PagesOfJob(s.db.pages, id)
            || (&& PagesOfJob(DbStep(s, m).pages, id) == PagesOfJob(s.db.pages, id) + 1
                && s.db.jobs[id].hold.owner.Some? && DbStep(s, m).jobs[id].hold.owner.None?)
  {
    PagesStep(s, m);
    if m.event.Claim? {
      HaltClaim(s, m, id);
    } else {
      NoClaimStep(s, m);
      if DbStep(s, m).pages != s.db.pages {
        HaltedCommit(s, m, id);
      }
    }
  }

  lemma HaltedCommit(s: Sys, m: Moment, id: JobId)
    requires Enabled(s, m) && m.event.Commit? && LeasesOk(s.db) && Halted(s.db, id)
    requires MayCommit(s.db, CommitOf(m.event.w, s.workers[m.event.w], m.event))
    ensures PagesOfJob(DbStep(s, m).pages, id) <= PagesOfJob(s.db.pages, id) + 1
    ensures PagesOfJob(DbStep(s, m).pages, id) != PagesOfJob(s.db.pages, id) ==>
              s.db.jobs[id].hold.owner.Some? && DbStep(s, m).jobs[id].hold.owner.None?
    ensures PagesOfJob(DbStep(s, m).pages, id) >= PagesOfJob(s.db.pages, id)
  {
    var c := CommitOf(m.event.w, s.workers[m.event.w], m.event);
    assert LeaseOk(s.db.jobs[id]);
    PagesOfJobAppend(s.db.pages, PageOf(c), id);
    CommitRow(s.db, c, m.now);
  }

  /** While nobody resumes it, a halted job commits at most the one page already claimed, and none if it is not claimed. */
  lemma {:induction false} PauseTakesEffect(s: Sys, trace: seq<Moment>, id: JobId)
    requires LeaseInv(s) && Possible(s, trace) && Halted(s.db, id)
    requires forall i | 0 <= i < |trace| :: !Resumes(trace[i], id)
    ensures PagesOfJob(After(s, trace).db.pages, id)
            <= PagesOfJob(s.db.pages, id) + (if s.db.jobs[id].hold.owner.Some? then 1 else 0)
    decreases |trace|
  {
    if trace != [] {
      HaltedPageStep(s, trace[0], id);
      HaltStep(s, trace[0], id);
      LeaseInvStep(s, trace[0]);
      PauseTakesEffect(Step(s, trace[0]), trace[1..], id);
    }
  }
}
