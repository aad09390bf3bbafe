/** Leases over every run: who holds a job, and in which claim each page was committed. */
module LeaseInvariants {
  import opened Options
  import opened Tables
  import opened Transactions
  import opened Protocol

  /** Active exactly when owner, expiry and heartbeat are all set. */
  predicate LeaseOk(j: Job) {
    && (Active(j.status) <==> j.hold.owner.Some?)
    && (Active(j.status) <==> j.hold.expiresAt.Some?)
    && (Active(j.status) <==> j.hold.heartbeatAt.Some?)
  }

  ghost predicate LeasesOk(db: Db) {
    forall id | id in db.jobs :: LeaseOk(db.jobs[id])
  }

  /** The named owner is working on this job in its latest claim, or is dead. */
  predicate Backed(s: Sys, id: JobId, w: WorkerId)
    requires id in s.db.jobs
  {
    && w in s.workers
    && (s.workers[w].Dead?
        || (s.workers[w].Busy? && s.workers[w].job == id && s.workers[w].claim == s.db.jobs[id].attempts))
  }

  ghost predicate OwnersBacked(s: Sys) {
    forall id, w | Owns(s.db, id, w) :: Backed(s, id, w)
  }

  /** A job that can be claimed has a run time from this transaction on, or the one it could be claimed with before. */
  predicate NotEarlier(j: Job, k: Job, now: Time) {
    Claimable(k.status) ==> k.nextRunAt >= now || (Claimable(j.status) && k.nextRunAt == j.nextRunAt)
  }

  /** How a transaction that is no claim may change a job row. */
  predicate SameClaim(j: Job, k: Job, now: Time) {
    && k.def == j.def && k.attempts == j.attempts
    && (k.hold.owner == j.hold.owner || k.hold.owner.None?)
    && (LeaseOk(j) ==> LeaseOk(k))
    && NotEarlier(j, k, now)
  }

  /** At most one job row changes, within its claim and without its cursor. */
  predicate OneRow(db: Db, after: Db, id: JobId, now: Time) {
    || after.jobs == db.jobs
    || (&& id in db.jobs && id in after.jobs && after.jobs == db.jobs[id := after.jobs[id]]
        && SameClaim(db.jobs[id], after.jobs[id], now) && after.jobs[id].cursor == db.jobs[id].cursor)
  }

  lemma ApiRow(db: Db, id: JobId, now: Time)
    ensures OneRow(db, OrKeep(PauseJob(db, id, now), db), id, now)
    ensures OneRow(db, OrKeep(ResumeJob(db, id, now), db), id, now)
    ensures OneRow(db, OrKeep(RunNow(db, id, now), db), id, now)
  {
  }

  lemma RefillRow(db: Db, id: JobId, gap: GapKey, at: Cursor, r: RefillId, now: Time)
    ensures OneRow(db, OrKeep(QueueRefill(db, id, gap, at, r, now), db), id, now)
  {
  }

  lemma HoldingRow(db: Db, id: JobId, w: WorkerId, lane: Lane, cursor: Cursor, refill: Option<RefillId>,
                   status: Status, now: Time, seconds: Time)
    ensures OneRow(db, OrKeep(BeginActive(db, id, w, lane, cursor, refill, now, seconds), db), id, now)
    ensures OneRow(db, OrKeep(Transition(db, id, w, status, now, seconds), db), id, now)
    ensures OneRow(db, OrKeep(Heartbeat(db, id, w, now, seconds), db), id, now)
  {
  }

  lemma LeavingRow(db: Db, id: JobId, w: WorkerId, retryAfter: Option<Time>, jitter: Time, now: Time)
    ensures OneRow(db, RetryJob(db, id, w, retryAfter, jitter, now), id, now)
    ensures OneRow(db, BlockJob(db, id, w), id, now)
    ensures OneRow(db, ReleaseJob(db, id, w, now), id, now)
  {
  }

  lemma CommitRow(db: Db, c: PageCommit, now: Time)
    requires MayCommit(db, c)
    ensures CommitPage(db, c, now).value.jobs == db.jobs[c.job := JobAfter(db.jobs[c.job], db.refills, c, now)]
    ensures SameClaim(db.jobs[c.job], JobAfter(db.jobs[c.job], db.refills, c, now), now)
  {
  }

  lemma RecoverRow(db: Db, now: Time, id: JobId)
    requires id in db.jobs
    ensures id in RecoverExpired(db, now).jobs
    ensures SameClaim(db.jobs[id], RecoverExpired(db, now).jobs[id], now)
    ensures RecoverExpired(db, now).jobs[id].cursor == db.jobs[id].cursor
  {
  }

  /** Every job stays in the claim it was in, or loses its owner; new jobs have none. */
  ghost predicate NoClaim(db: Db, after: Db, now: Time) {
    && (forall id | id in db.jobs :: id in after.jobs && SameClaim(db.jobs[id], after.jobs[id], now))
    && (forall id | id in after.jobs && id !in db.jobs ::
          after.jobs[id].hold == NO_HOLD && !Active(after.jobs[id].status) && after.jobs[id].nextRunAt >= now)
  }

  ghost predicate CursorsKept(db: Db, after: Db) {
    forall id | id in db.jobs && id in after.jobs :: after.jobs[id].cursor == db.jobs[id].cursor
  }

  lemma NoClaimApi(s: Sys, m: Moment)
    requires Enabled(s, m)
    requires m.event.Create? || m.event.Pause? || m.event.Resume? || m.event.RunJobNow? || m.event.AskRefill?
    ensures NoClaim(s.db, DbStep(s, m), m.now) && CursorsKept(s.db, DbStep(s, m))
  {
    match m.event
    case Create(_, _, _, _, _, _) =>
    case Pause(target) => ApiRow(s.db, target, m.now);
    case Resume(target) => ApiRow(s.db, target, m.now);
    case RunJobNow(target) => ApiRow(s.db, target, m.now);
    case AskRefill(target, gap, at, r) => RefillRow(s.db, target, gap, at, r, m.now);
  }

  lemma NoClaimWorker(s: Sys, m: Moment)
    requires Enabled(s, m)
    requires m.event.Begin? || m.event.Move? || m.event.Beat? || m.event.Retry? || m.event.Block? || m.event.Release?
    ensures NoClaim(s.db, DbStep(s, m), m.now) && CursorsKept(s.db, DbStep(s, m))
  {
    var db, now := s.db, m.now;
    match m.event
    case Begin(w, seconds) =>
      var k := s.workers[w];
      HoldingRow(db, k.job, w, k.lane, k.cursor, k.refill, Leased, now, seconds);
    case Move(w, status, seconds) => HoldingRow(db, s.workers[w].job, w, MainLane, 0, None, status, now, seconds);
    case Beat(w, seconds) => HoldingRow(db, s.workers[w].job, w, MainLane, 0, None, Leased, now, seconds);
    case Retry(w, retryAfter, jitter) => LeavingRow(db, s.workers[w].job, w, retryAfter, jitter, now);
    case Block(w) => LeavingRow(db, s.workers[w].job, w, None, 0.0, now);
    case Release(w) => LeavingRow(db, s.workers[w].job, w, None, 0.0, now);
  }

  lemma NoClaimCommit(s: Sys, m: Moment)
    requires Enabled(s, m) && m.event.Commit?
    ensures NoClaim(s.db, DbStep(s, m), m.now)
  {
    var c := CommitOf(m.event.w, s.workers[m.event.w], m.event);
    if MayCommit(s.db, c) {
      CommitRow(s.db, c, m.now);
    }
  }

  /** Every event but a claim keeps the claims as they are. */
  lemma NoClaimStep(s: Sys, m: Moment)
    requires Enabled(s, m) && !m.event.Claim?
    ensures NoClaim(s.db, DbStep(s, m), m.now)
    ensures !m.event.Commit? ==> CursorsKept(s.db, DbStep(s, m))
  {
    match m.event
    case Commit(_, _, _, _, _, _) => NoClaimCommit(s, m);
    case Recover =>
      forall id | id in s.db.jobs ensures SameClaim(s.db.jobs[id], RecoverExpired(s.db, m.now).jobs[id], m.now) {
        RecoverRow(s.db, m.now, id);
      }
    case Start(_) =>
    case Crash(_) =>
    case Create(_, _, _, _, _, _) => NoClaimApi(s, m);
    case Pause(_) => NoClaimApi(s, m);
    case Resume(_) => NoClaimApi(s, m);
    case RunJobNow(_) => NoClaimApi(s, m);
    case AskRefill(_, _, _, _) => NoClaimApi(s, m);
    case _ => NoClaimWorker(s, m);
  }

  lemma LeasesOkStep(s: Sys, m: Moment)
    requires Enabled(s, m) && LeasesOk(s.db)
    ensures LeasesOk(DbStep(s, m))
  {
    if m.event.Claim? {
      ClaimHasEffect(s.db, m.event.w, m.now, m.event.seconds, m.event.allowed, m.event.a);
    } else {
      NoClaimStep(s, m);
    }
  }

  /** A worker is unchanged, died, moved its cursor on, or went idle without the lease. */
  predicate Stays(before: Worker, after: Worker, db: Db, w: WorkerId) {
    || after == before || after.Dead?
    || (before.Busy? && after.Busy? && after == before.(cursor := after.cursor))
    || (before.Busy? && after.Idle? && !Owns(db, before.job, w))
  }

  ghost predicate WorkersStay(s: Sys, after: Sys) {
    forall w | w in s.workers :: w in after.workers && Stays(s.workers[w], after.workers[w], after.db, w)
  }

  lemma LeavingDrops(db: Db, id: JobId, w: WorkerId, retryAfter: Option<Time>, jitter: Time, now: Time)
    ensures !Owns(RetryJob(db, id, w, retryAfter, jitter, now), id, w)
    ensures !Owns(BlockJob(db, id, w), id, w)
    ensures !Owns(ReleaseJob(db, id, w, now), id, w)
  {
  }

  lemma WorkersStayStep(s: Sys, m: Moment)
    requires Enabled(s, m) && !m.event.Claim?
    ensures WorkersStay(s, Step(s, m))
    ensures !m.event.Commit? ==>
              forall w | w in s.workers && WorkerStep(s, m)[w].Busy? :: WorkerStep(s, m)[w] == s.workers[w]
  {
    match m.event
    case Retry(w, retryAfter, jitter) => LeavingDrops(s.db, s.workers[w].job, w, retryAfter, jitter, m.now);
    case Block(w) => LeavingDrops(s.db, s.workers[w].job, w, None, 0.0, m.now);
    case Release(w) => LeavingDrops(s.db, s.workers[w].job, w, None, 0.0, m.now);
    case Commit(w, _, _, _, _, _) =>
      var c := CommitOf(w, s.workers[w], m.event);
      if MayCommit(s.db, c) {
        CommitRow(s.db, c, m.now);
      }
    case _ =>
  }

  /** Without a claim, an owner afterwards was the owner before and is still on the job. */
  lemma BackedWithoutClaim(s: Sys, after: Sys, now: Time)
    requires OwnersBacked(s) && NoClaim(s.db, after.db, now) && WorkersStay(s, after)
    ensures OwnersBacked(after)
  {
    forall id, w | Owns(after.db, id, w) ensures Backed(after, id, w) {
      assert Owns(s.db, id, w);
      assert Backed(s, id, w);
      assert Stays(s.workers[w], after.workers[w], after.db, w);
    }
  }

  /** A claim leaves other jobs unowned or as they were. */
  lemma OwnersBackedClaim(s: Sys, m: Moment)
    requires Enabled(s, m) && m.event.Claim? && OwnersBacked(s)
    ensures OwnersBacked(Step(s, m))
  {
    ClaimHasEffect(s.db, m.event.w, m.now, m.event.seconds, m.event.allowed, m.event.a);
    var t := Step(s, m);
    forall id, w | Owns(t.db, id, w) ensures Backed(t, id, w) {
      if m.event.a.pick != Some(id) {
        assert t.db.jobs[id] == s.db.jobs[id];
        assert Owns(s.db, id, w) && Backed(s, id, w);
      }
    }
  }

  lemma OwnersBackedStep(s: Sys, m: Moment)
    requires Enabled(s, m) && OwnersBacked(s)
    ensures OwnersBacked(Step(s, m))
  {
    if m.event.Claim? {
      OwnersBackedClaim(s, m);
    } else {
      NoClaimStep(s, m);
      WorkersStayStep(s, m);
      BackedWithoutClaim(s, Step(s, m), m.now);
    }
  }

  // ----- pages and claims

  /** Only a commit writes pages, and it appends one. */
  lemma PagesStep(s: Sys, m: Moment)
    requires Enabled(s, m)
    ensures DbStep(s, m).pages == s.db.pages
            || (&& m.event.Commit? && MayCommit(s.db, CommitOf(m.event.w, s.workers[m.event.w], m.event))
                && DbStep(s, m).pages == s.db.pages + [PageOf(CommitOf(m.event.w, s.workers[m.event.w], m.event))])
  {
    if m.event.Claim? {
      ClaimHasEffect(s.db, m.event.w, m.now, m.event.seconds, m.event.allowed, m.event.a);
    }
  }

  /** Pages of a job are committed in claim order, all pages of one claim by its one worker. */
  ghost predicate PagesInOrder(pages: seq<Page>) {
    forall i, j | 0 <= i < j < |pages| && pages[i].job == pages[j].job ::
      && pages[i].claim <= pages[j].claim
      && (pages[i].claim == pages[j].claim ==> pages[i].owner == pages[j].owner)
  }

  /** No page is ahead of its job's claims, and the pages of the claim now held are its holder's. */
  ghost predicate PagesClaimed(db: Db) {
    forall i | 0 <= i < |db.pages| ::
      && db.pages[i].job in db.jobs && db.pages[i].claim <= db.jobs[db.pages[i].job].attempts
      && (db.pages[i].claim == db.jobs[db.pages[i].job].attempts && db.jobs[db.pages[i].job].hold.owner.Some? ==>
            db.jobs[db.pages[i].job].hold.owner == Some(db.pages[i].owner))
  }

  ghost predicate LeaseInv(s: Sys) {
    LeasesOk(s.db) && OwnersBacked(s) && PagesInOrder(s.db.pages) && PagesClaimed(s.db)
  }

  /** A committing worker holds the job in its latest claim. */
  lemma CommitterIsCurrent(s: Sys, m: Moment)
    requires Enabled(s, m) && m.event.Commit? && OwnersBacked(s)
    requires MayCommit(s.db, CommitOf(m.event.w, s.workers[m.event.w], m.event))
    ensures s.workers[m.event.w].claim == s.db.jobs[s.workers[m.event.w].job].attempts
  {
    assert Backed(s, s.workers[m.event.w].job, m.event.w);
  }

  lemma PagesWithoutClaim(db: Db, after: Db, now: Time)
    requires PagesClaimed(db) && PagesInOrder(db.pages) && NoClaim(db, after, now)
    requires after.pages == db.pages
             || (&& after.pages != [] && after.pages[..|after.pages| - 1] == db.pages
                 && Owns(db, after.pages[|after.pages| - 1].job, after.pages[|after.pages| - 1].owner)
                 && after.pages[|after.pages| - 1].claim == db.jobs[after.pages[|after.pages| - 1].job].attempts)
    ensures PagesClaimed(after) && PagesInOrder(after.pages)
  {
  }

  lemma PagesClaimedStep(s: Sys, m: Moment)
    requires Enabled(s, m) && LeaseInv(s)
    ensures PagesClaimed(DbStep(s, m)) && PagesInOrder(DbStep(s, m).pages)
  {
    PagesStep(s, m);
    if m.event.Claim? {
      ClaimHasEffect(s.db, m.event.w, m.now, m.event.seconds, m.event.allowed, m.event.a);
    } else {
      NoClaimStep(s, m);
      if DbStep(s, m).pages != s.db.pages {
        CommitterIsCurrent(s, m);
      }
      PagesWithoutClaim(s.db, DbStep(s, m), m.now);
    }
  }

  lemma LeaseInvStep(s: Sys, m: Moment)
    requires Enabled(s, m) && LeaseInv(s)
    ensures LeaseInv(Step(s, m))
  {
    LeasesOkStep(s, m);
    OwnersBackedStep(s, m);
    PagesClaimedStep(s, m);
  }

  /** In every reachable state the leases are consistent and the pages are in claim order. */
  lemma {:induction false} LeasesHoldOnEveryRun(s: Sys, trace: seq<Moment>)
    requires LeaseInv(s) && Possible(s, trace)
    ensures LeaseInv(After(s, trace))
    decreases |trace|
  {
    if trace != [] {
      LeaseInvStep(s, trace[0]);
      LeasesHoldOnEveryRun(Step(s, trace[0]), trace[1..]);
    }
  }

  // ----- a claim that lost its lease never commits again

  /** The claims up to number `claim` of a job are over. */
  predicate Over(db: Db, id: JobId, claim: nat) {
    && id in db.jobs
    && (db.jobs[id].attempts > claim || (db.jobs[id].attempts == claim && db.jobs[id].hold.owner.None?))
  }

  lemma OverStep(s: Sys, m: Moment, id: JobId, claim: nat)
    requires Enabled(s, m) && LeaseInv(s) && Over(s.db, id, claim)
    ensures Over(DbStep(s, m), id, claim)
    ensures |s.db.pages| <= |DbStep(s, m).pages| && s.db.pages == DbStep(s, m).pages[..|s.db.pages|]
    ensures forall i | |s.db.pages| <= i < |DbStep(s, m).pages| && DbStep(s, m).pages[i].job == id ::
              DbStep(s, m).pages[i].claim > claim
  {
    PagesStep(s, m);
    if m.event.Claim? {
      ClaimHasEffect(s.db, m.event.w, m.now, m.event.seconds, m.event.allowed, m.event.a);
    } else {
      NoClaimStep(s, m);
      if DbStep(s, m).pages != s.db.pages {
        CommitterIsCurrent(s, m);
      }
    }
  }

  /**
   * Once a lease is dropped, however that happened, every later page of the job
   * belongs to a later claim.
   */
  lemma {:induction false} DroppedLeaseNeverCommits(s: Sys, trace: seq<Moment>, id: JobId, claim: nat)
    requires LeaseInv(s) && Possible(s, trace) && Over(s.db, id, claim)
    ensures |s.db.pages| <= |After(s, trace).db.pages|
    ensures forall i | |s.db.pages| <= i < |After(s, trace).db.pages| && After(s, trace).db.pages[i].job == id ::
              After(s, trace).db.pages[i].claim > claim
    decreases |trace|
  {
    if trace != [] {
      var t, n := Step(s, trace[0]), |Step(s, trace[0]).db.pages|;
      LeaseInvStep(s, trace[0]);
      OverStep(s, trace[0], id, claim);
      DroppedLeaseNeverCommits(t, trace[1..], id, claim);
      PagesOnlyGrow(t, trace[1..]);
      assert forall i | 0 <= i < n :: After(s, trace).db.pages[i] == t.db.pages[i];
    }
  }

  lemma {:induction false} PagesOnlyGrow(s: Sys, trace: seq<Moment>)
    requires Possible(s, trace)
    ensures |s.db.pages| <= |After(s, trace).db.pages|
    ensures After(s, trace).db.pages[..|s.db.pages|] == s.db.pages
    decreases |trace|
  {
    if trace != [] {
      var t := Step(s, trace[0]);
      PagesStep(s, trace[0]);
      PagesOnlyGrow(t, trace[1..]);
      var last := After(s, trace).db.pages;
      assert t.db.pages[..|s.db.pages|] == s.db.pages;
      assert last[..|t.db.pages|][..|s.db.pages|] == last[..|s.db.pages|];
    }
  }
}
