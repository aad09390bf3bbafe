/**
 * The mining protocol: workers, API calls, lease recovery and crashes interleave,
 * one transaction at a time. Any number of workers may run.
 */
module Protocol {
  import opened Options
  import opened Tables
  import opened Transactions

  /** A worker between two of its transactions; the fields are the locals of _process_job. */
  datatype Worker =
    | Idle
    | Busy(job: JobId, claim: nat, lane: Lane, refill: Option<RefillId>, cursor: Cursor)
    | Dead

  datatype Sys = Sys(db: Db, workers: map<WorkerId, Worker>)

  datatype Event =
    | Create(id: JobId, provider: ProviderId, start: Cursor, initial: Option<Cursor>, schedule: int, step: Option<Time>)
    | Pause(id: JobId)
    | Resume(id: JobId)
    | RunJobNow(id: JobId)
    | AskRefill(id: JobId, gap: GapKey, at: Cursor, newRefill: RefillId)
    | Recover
    | Start(w: WorkerId)
    | Crash(w: WorkerId)
    | Claim(w: WorkerId, seconds: Time, allowed: set<ProviderId>, a: Admission, overlap: Cursor)
    | Begin(w: WorkerId, seconds: Time)
    | Move(w: WorkerId, status: Status, seconds: Time)
    | Beat(w: WorkerId, seconds: Time)
    | Retry(w: WorkerId, retryAfter: Option<Time>, jitter: Time)
    | Block(w: WorkerId)
    | Release(w: WorkerId)
    | Commit(w: WorkerId, page: PageId, next: Option<Cursor>, entries: seq<Entry>, continueFetch: bool, seconds: Time)

  /** An event and the clock when it happens. */
  datatype Moment = Moment(event: Event, now: Time)

  /** Where a main-lane run starts: the stored cursor, or the provider's first one. */
  function Checkpoint(j: Job): Cursor {
    if j.cursor.Some? then j.cursor.value else j.def.providerStart
  }

  predicate IsBusy(s: Sys, w: WorkerId) {
    w in s.workers && s.workers[w].Busy?
  }

  /** The event can happen. New ids are fresh, and a provider's overlap never moves a cursor forward. */
  predicate Enabled(s: Sys, m: Moment) {
    match m.event
    case AskRefill(_, _, _, r) => r !in s.db.refills
    case Start(w) => w !in s.workers
    case Crash(w) => w in s.workers
    case Claim(w, _, allowed, a, overlap) =>
      && w in s.workers && s.workers[w].Idle? && Admits(s.db, m.now, allowed, a)
      && (a.pick.Some? ==> a.pick.value in s.db.jobs && overlap <= Checkpoint(s.db.jobs[a.pick.value]))
      && (a.refill.Some? ==> a.refill.value in s.db.refills)
    case Begin(w, _) => IsBusy(s, w)
    case Move(w, _, _) => IsBusy(s, w)
    case Beat(w, _) => IsBusy(s, w)
    case Retry(w, _, _) => IsBusy(s, w)
    case Block(w) => IsBusy(s, w)
    case Release(w) => IsBusy(s, w)
    case Commit(w, page, _, _, _, _) =>
      IsBusy(s, w) && forall i | 0 <= i < |s.db.pages| :: s.db.pages[i].id != page
    case _ => true
  }

  /** A raised exception rolls the transaction back. */
  function OrKeep(r: Result<Db>, db: Db): Db {
    if r.Ok? then r.value else db
  }

  /** The arguments a worker passes to commit_page. */
  function CommitOf(w: WorkerId, k: Worker, e: Event): PageCommit
    requires k.Busy? && e.Commit?
  {
    PageCommit(e.page, k.job, w, k.claim, k.lane, k.refill, k.cursor, e.next, e.entries, e.continueFetch, e.seconds)
  }

  /** The database after an event. */
  function DbStep(s: Sys, m: Moment): Db
    requires Enabled(s, m)
  {
    var db, now := s.db, m.now;
    match m.event
    case Create(id, provider, start, initial, schedule, step) =>
      OrKeep(CreateJob(db, id, provider, start, initial, schedule, step, now), db)
    case Pause(id) => OrKeep(PauseJob(db, id, now), db)
    case Resume(id) => OrKeep(ResumeJob(db, id, now), db)
    case RunJobNow(id) => OrKeep(RunNow(db, id, now), db)
    case AskRefill(id, gap, at, r) => OrKeep(QueueRefill(db, id, gap, at, r, now), db)
    case Recover => RecoverExpired(db, now)
    case Start(_) => db
    case Crash(_) => db
    case Claim(w, seconds, allowed, a, _) => ClaimNext(db, w, now, seconds, allowed, a)
    case Begin(w, seconds) =>
      var k := s.workers[w];
      OrKeep(BeginActive(db, k.job, w, k.lane, k.cursor, k.refill, now, seconds), db)
    case Move(w, status, seconds) => OrKeep(Transition(db, s.workers[w].job, w, status, now, seconds), db)
    case Beat(w, seconds) => OrKeep(Heartbeat(db, s.workers[w].job, w, now, seconds), db)
    case Retry(w, retryAfter, jitter) => RetryJob(db, s.workers[w].job, w, retryAfter, jitter, now)
    case Block(w) => BlockJob(db, s.workers[w].job, w)
    case Release(w) => ReleaseJob(db, s.workers[w].job, w, now)
    case Commit(w, _, _, _, _, _) => OrKeep(CommitPage(db, CommitOf(w, s.workers[w], m.event), now), db)
  }

  /** The worker that acted, after its event. */
  function WorkerStep(s: Sys, m: Moment): map<WorkerId, Worker>
    requires Enabled(s, m)
  {
    match m.event
    case Start(w) => s.workers[w := Idle]
    case Crash(w) => s.workers[w := Dead]
    case Claim(w, _, _, a, overlap) =>
      if a.pick.None? then s.workers
      else
        var id := a.pick.value;
        s.workers[w :=
          match a.refill
          case None => Busy(id, s.db.jobs[id].attempts + 1, MainLane, None, overlap)
          case Some(r) => Busy(id, s.db.jobs[id].attempts + 1, RefillLane, Some(r), s.db.refills[r].cursor)]
    case Retry(w, _, _) => s.workers[w := Idle]
    case Block(w) => s.workers[w := Idle]
    case Release(w) => s.workers[w := Idle]
    case Commit(w, _, next, _, _, _) =>
      var k := s.workers[w];
      var c := CommitOf(w, k, m.event);
      if !MayCommit(s.db, c) then s.workers
      else if StatusAfter(s.db.jobs[c.job], s.db.refills, c) == Leased then s.workers[w := k.(cursor := next.value)]
      else s.workers[w := Idle]
    case _ => s.workers
  }

  function Step(s: Sys, m: Moment): Sys
    requires Enabled(s, m)
  {
    Sys(DbStep(s, m), WorkerStep(s, m))
  }

  const INITIAL := Sys(EMPTY_DB, map[])

  /** A trace whose events are all enabled in turn. */
  ghost predicate Possible(s: Sys, trace: seq<Moment>)
    decreases |trace|
  {
    trace == [] || (Enabled(s, trace[0]) && Possible(Step(s, trace[0]), trace[1..]))
  }

  ghost function After(s: Sys, trace: seq<Moment>): Sys
    requires Possible(s, trace)
    decreases |trace|
  {
    if trace == [] then s else After(Step(s, trace[0]), trace[1..])
  }

  // ----- what an admission loop does

  /** How one refill row may change during an admission. */
  predicate AdmittedRefill(before: RefillTask, after: RefillTask, taken: bool, w: WorkerId) {
    || after == before
    || (before.status == RefillQueued && after == before.(status := RefillFailed, owner := None))
    || (taken && before.status == RefillQueued && after == before.(status := RefillLeased, owner := Some(w)))
  }

  /** The whole effect of a claim: refused jobs are blocked, the picked one is leased, nothing else moves. */
  ghost predicate ClaimEffect(db: Db, after: Db, a: Admission, w: WorkerId, now: Time, seconds: Time) {
    && after == db.(jobs := after.jobs, refills := after.refills)
    && after.jobs.Keys == db.jobs.Keys && after.refills.Keys == db.refills.Keys
    && (forall id | id in db.jobs && a.pick != Some(id) ::
          after.jobs[id] == db.jobs[id] || (Due(db.jobs[id], now) && after.jobs[id] == Refused(db.jobs[id])))
    && (a.pick.Some? ==>
          && a.pick.value in db.jobs && Due(db.jobs[a.pick.value], now)
          && after.jobs[a.pick.value] == LeasedBy(db.jobs[a.pick.value], w, now, seconds))
    && (forall r | r in db.refills :: AdmittedRefill(db.refills[r], after.refills[r], a.refill == Some(r), w))
  }

  lemma {:induction false} ClaimHasEffect(db: Db, w: WorkerId, now: Time, seconds: Time, allowed: set<ProviderId>, a: Admission)
    requires Admits(db, now, allowed, a)
    ensures ClaimEffect(db, ClaimNext(db, w, now, seconds, allowed, a), a, w, now, seconds)
    decreases |a.refused|
  {
    if a.refused != [] {
      var first := a.refused[0];
      var rest := a.(refused := a.refused[1..]);
      var mid := Refuse(db, first);
      ClaimHasEffect(mid, w, now, seconds, allowed, rest);
      var after := ClaimNext(db, w, now, seconds, allowed, a);
      assert !Due(mid.jobs[first], now);
      forall r | r in db.refills ensures AdmittedRefill(db.refills[r], after.refills[r], a.refill == Some(r), w) {
        assert AdmittedRefill(mid.refills[r], after.refills[r], a.refill == Some(r), w);
      }
    }
  }
}
