/** Refills over every run: one pending refill per gap, and queued refills go first. */
module RefillPriority {
  import opened Options
  import opened Tables
  import opened Transactions
  import opened Protocol
  import opened LeaseInvariants

  // ----- one pending refill per gap

  ghost predicate PendingUnique(refills: map<RefillId, RefillTask>) {
    forall q, r | q in refills && r in refills && Pending(refills[q]) && Pending(refills[r]) && refills[q].gap == refills[r].gap ::
      q == r
  }

  /** No row is added, and no settled row becomes pending again. */
  ghost predicate NoneRevived(before: map<RefillId, RefillTask>, after: map<RefillId, RefillTask>) {
    forall r | r in after ::
      && r in before && after[r].gap == before[r].gap && after[r].job == before[r].job
      && (Pending(after[r]) ==> Pending(before[r]))
  }

  lemma NoneRevivedKeepsUnique(before: map<RefillId, RefillTask>, after: map<RefillId, RefillTask>)
    requires PendingUnique(before) && NoneRevived(before, after)
    ensures PendingUnique(after)
  {
  }

  lemma NoneRevivedStep(s: Sys, m: Moment)
    requires Enabled(s, m) && !m.event.AskRefill?
    ensures NoneRevived(s.db.refills, DbStep(s, m).refills)
  {
    if m.event.Claim? {
      ClaimHasEffect(s.db, m.event.w, m.now, m.event.seconds, m.event.allowed, m.event.a);
      var after := DbStep(s, m).refills;
      forall r | r in after
        ensures after[r].gap == s.db.refills[r].gap && after[r].job == s.db.refills[r].job
        ensures Pending(after[r]) ==> Pending(s.db.refills[r])
      {
        assert AdmittedRefill(s.db.refills[r], after[r], m.event.a.refill == Some(r), m.event.w);
      }
    }
  }

  lemma AskKeepsUnique(db: Db, id: JobId, gap: GapKey, at: Cursor, r: RefillId, now: Time)
    requires PendingUnique(db.refills) && r !in db.refills
    ensures PendingUnique(OrKeep(QueueRefill(db, id, gap, at, r, now), db).refills)
  {
  }

  lemma PendingUniqueStep(s: Sys, m: Moment)
    requires Enabled(s, m) && PendingUnique(s.db.refills)
    ensures PendingUnique(DbStep(s, m).refills)
  {
    match m.event
    case AskRefill(id, gap, at, r) => AskKeepsUnique(s.db, id, gap, at, r, m.now);
    case _ =>
      NoneRevivedStep(s, m);
      NoneRevivedKeepsUnique(s.db.refills, DbStep(s, m).refills);
  }

  /** At every moment each gap has at most one queued or leased refill. */
  lemma {:induction false} OnePendingRefillOnEveryRun(s: Sys, trace: seq<Moment>)
    requires PendingUnique(s.db.refills) && Possible(s, trace)
    ensures PendingUnique(After(s, trace).db.refills)
    decreases |trace|
  {
    if trace != [] {
      PendingUniqueStep(s, trace[0]);
      OnePendingRefillOnEveryRun(Step(s, trace[0]), trace[1..]);
    }
  }

  // ----- queued refills go first

  function MainPages(pages: seq<Page>, id: JobId): nat {
    if pages == [] then 0
    else
      MainPages(pages[..|pages| - 1], id)
      + (if pages[|pages| - 1].job == id && pages[|pages| - 1].lane == MainLane then 1 else 0)
  }

  lemma MainPagesAppend(pages: seq<Page>, p: Page, id: JobId)
    ensures MainPages(pages + [p], id) == MainPages(pages, id) + (if p.job == id && p.lane == MainLane then 1 else 0)
  {
    assert (pages + [p])[..|pages|] == pages;
  }

  /** A refill of the job is queued in every state of the run. */
  ghost predicate AlwaysQueued(s: Sys, trace: seq<Moment>, id: JobId)
    requires Possible(s, trace)
    decreases |trace|
  {
    HasQueued(s.db.refills, id) && (trace == [] || AlwaysQueued(Step(s, trace[0]), trace[1..], id))
  }

  /** No claim of the run takes a refill of the job along. */
  predicate NeverTaken(trace: seq<Moment>, id: JobId) {
    forall i | 0 <= i < |trace| && trace[i].event.Claim? && trace[i].event.a.pick == Some(id) ::
      trace[i].event.a.refill.None?
  }

  /** A claim of a job with a queued refill takes a refill of that job. */
  lemma {:induction false} ClaimTakesRefill(db: Db, now: Time, allowed: set<ProviderId>, a: Admission, id: JobId)
    requires Admits(db, now, allowed, a) && a.pick == Some(id) && HasQueued(db.refills, id)
    ensures a.refill.Some?
    ensures a.refill.value in db.refills && db.refills[a.refill.value].job == id
            && db.refills[a.refill.value].status == RefillQueued
    decreases |a.refused|
  {
    if a.refused != [] {
      var first, rest := a.refused[0], a.(refused := a.refused[1..]);
      var mid := Refuse(db, first);
      ClaimHasEffect(mid, WorkerId(""), now, 0.0, allowed, rest);
      assert first != id;
      var r :| r in db.refills && db.refills[r].job == id && db.refills[r].status == RefillQueued;
      assert r in mid.refills && mid.refills[r] == db.refills[r];
      ClaimTakesRefill(mid, now, allowed, rest, id);
    }
  }

  /** A main page that finds a queued refill gives the job back. */
  lemma MainPageYields(db: Db, c: PageCommit, now: Time)
    requires MayCommit(db, c) && c.lane == MainLane && HasQueued(db.refills, c.job)
    ensures CommitPage(db, c, now).value.jobs[c.job].hold.owner.None?
  {
    CommitRow(db, c, now);
  }

  /** How one event of such a run moves the count of main pages. */
  lemma WaitingStep(s: Sys, m: Moment, id: JobId)
    requires Enabled(s, m) && LeaseInv(s) && id in s.db.jobs && HasQueued(s.db.refills, id) && NeverTaken([m], id)
    ensures id in DbStep(s, m).jobs
    ensures s.db.jobs[id].hold.owner.None? ==> DbStep(s, m).jobs[id].hold.owner.None?
    ensures MainPages(DbStep(s, m).pages, id) == MainPages(s.db.pages, id)
            || (&& MainPages(DbStep(s, m).pages, id) == MainPages(s.db.pages, id) + 1
                && s.db.jobs[id].hold.owner.Some? && DbStep(s, m).jobs[id].hold.owner.None?)
  {
    PagesStep(s, m);
    if m.event.Claim? {
      assert [m][0] == m;
      if m.event.a.pick == Some(id) {
        ClaimTakesRefill(s.db, m.now, m.event.allowed, m.event.a, id);
      }
      ClaimHasEffect(s.db, m.event.w, m.now, m.event.seconds, m.event.allowed, m.event.a);
    } else {
      NoClaimStep(s, m);
      if DbStep(s, m).pages != s.db.pages {
        var c := CommitOf(m.event.w, s.workers[m.event.w], m.event);
        MainPagesAppend(s.db.pages, PageOf(c), id);
        if c.lane == MainLane && c.job == id {
          MainPageYields(s.db, c, m.now);
        }
      }
    }
  }

  /**
   * While a refill of a job waits in the queue, at most one main page of that job
   * commits before a refill is leased, and none if the job was not already claimed.
   */
  lemma {:induction false} QueuedRefillGoesFirst(s: Sys, trace: seq<Moment>, id: JobId)
    requires LeaseInv(s) && Possible(s, trace) && id in s.db.jobs
    requires AlwaysQueued(s, trace, id) && NeverTaken(trace, id)
    ensures MainPages(After(s, trace).db.pages, id)
            <= MainPages(s.db.pages, id) + (if s.db.jobs[id].hold.owner.Some? then 1 else 0)
    decreases |trace|
  {
    if trace != [] {
      var m, rest := trace[0], trace[1..];
      assert NeverTaken([m], id) && NeverTaken(rest, id);
      WaitingStep(s, m, id);
      LeaseInvStep(s, m);
      QueuedRefillGoesFirst(Step(s, m), rest, id);
    }
  }
}
