/**
 * The transactions of the mining store (mining/store.py) as functions on the
 * database: each `with self.transaction()` block is one atomic step. A clock
 * reading inside a transaction is the parameter `now`.
 */
module Transactions {
  import opened Options
  import opened Tables
  import opened GapIndex
  import opened Revisions

  // ----- pieces of the UPDATE statements

  /** lease_owner, lease_expires_at and heartbeat_at set to NULL. */
  function Unleased(j: Job): Job {
    j.(hold := NO_HOLD)
  }

  /** The lease and the active_* columns set to NULL. */
  function Deactivated(j: Job): Job {
    j.(hold := NO_HOLD, work := NO_WORK)
  }

  /** Every refill of a job in one status, moved to another and out of its lease. */
  function MoveRefills(refills: map<RefillId, RefillTask>, job: JobId, from: RefillStatus, to: RefillStatus)
    : map<RefillId, RefillTask>
  {
    map r | r in refills ::
      if refills[r].job == job && refills[r].status == from then refills[r].(status := to, owner := None) else refills[r]
  }

  predicate Owns(db: Db, id: JobId, w: WorkerId) {
    id in db.jobs && db.jobs[id].hold.owner == Some(w)
  }

  predicate HasQueued(refills: map<RefillId, RefillTask>, job: JobId) {
    exists r | r in refills :: refills[r].job == job && refills[r].status == RefillQueued
  }

  predicate Pending(t: RefillTask) {
    t.status == RefillQueued || t.status == RefillLeased
  }

  // ----- the API side

  function CreateJob(db: Db, id: JobId, provider: ProviderId, providerStart: Cursor, initialCursor: Option<Cursor>,
                     schedule: int, step: Option<Time>, now: Time): Result<Db>
  {
    if !(1 <= schedule <= 31_536_000) then Raised
    else if step.Some? && !(0.0 < step.value <= 1_000_000_000_000_000.0) then Raised
    else if id in db.jobs then Raised
    else Ok(db.(jobs := db.jobs[id :=
      Job(Definition(provider, schedule, step, initialCursor, providerStart, now), Queued, initialCursor,
          NO_WORK, now, NO_HOLD, false, 0, 0)]))
  }

  function PauseJob(db: Db, id: JobId, now: Time): Result<Db> {
    if id !in db.jobs then Raised
    else
      var j := db.jobs[id];
      Ok(db.(jobs := db.jobs[id :=
        if Active(j.status) then j.(pauseRequested := true)
        else Unleased(j).(status := Paused, pauseRequested := false, nextRunAt := now)]))
  }

  function ResumeJob(db: Db, id: JobId, now: Time): Result<Db> {
    if id !in db.jobs then Raised
    else Ok(db.(jobs := db.jobs[id :=
      Unleased(db.jobs[id]).(status := Queued, pauseRequested := false, nextRunAt := now)]))
  }

  function RunNow(db: Db, id: JobId, now: Time): Result<Db> {
    if id !in db.jobs then Raised
    else
      var j := db.jobs[id];
      if Active(j.status) then Ok(db)
      else if j.status == Paused then Raised
      else Ok(db.(jobs := db.jobs[id := j.(status := Queued, nextRunAt := now)]))
  }

  /** `refill` is the new uuid; it is used only when the gap has no pending refill. */
  function QueueRefill(db: Db, id: JobId, gap: GapKey, cursor: Cursor, refill: RefillId, now: Time): Result<Db> {
    if id !in db.jobs then Raised
    else if gap.job != id || !Unresolved(db.gaps, gap) then Raised
    else if exists r | r in db.refills :: db.refills[r].gap == gap && Pending(db.refills[r]) then Ok(db)
    else
      var j := db.jobs[id];
      var status := if j.status == Paused || Active(j.status) then j.status else Queued;
      Ok(db.(
        refills := db.refills[refill := RefillTask(id, gap, cursor, RefillQueued, None, now)],
        gaps := db.gaps[gap := db.gaps[gap].(status := BackfillQueued)],
        jobs := db.jobs[id := j.(status := status, nextRunAt := now)]))
  }

  // ----- leases

  predicate Expired(j: Job, now: Time) {
    Active(j.status) && (j.hold.expiresAt.None? || j.hold.expiresAt.value < now)
  }

  function Recovered(j: Job, now: Time): Job {
    Deactivated(j).(status := if j.pauseRequested then Paused else RetryWait, nextRunAt := now, pauseRequested := false)
  }

  function RecoverExpired(db: Db, now: Time): Db {
    db.(
      jobs := map id | id in db.jobs :: if Expired(db.jobs[id], now) then Recovered(db.jobs[id], now) else db.jobs[id],
      refills := map r | r in db.refills ::
        if db.refills[r].job in db.jobs && Expired(db.jobs[db.refills[r].job], now) && db.refills[r].status == RefillLeased
        then db.refills[r].(status := RefillQueued, owner := None) else db.refills[r])
  }

  predicate Claimable(s: Status) {
    s == Queued || s == RetryWait || s == Succeeded
  }

  predicate Due(j: Job, now: Time) {
    Claimable(j.status) && j.nextRunAt <= now && !j.pauseRequested
  }

  /** ORDER BY next_run_at, created_at. */
  predicate NoLater(a: Job, b: Job) {
    a.nextRunAt < b.nextRunAt || (a.nextRunAt == b.nextRunAt && a.def.createdAt <= b.def.createdAt)
  }

  /** A row the admission SELECT ... LIMIT 1 may return. */
  predicate FirstDue(jobs: map<JobId, Job>, now: Time, id: JobId) {
    && id in jobs && Due(jobs[id], now)
    && forall other | other in jobs && Due(jobs[other], now) :: NoLater(jobs[id], jobs[other])
  }

  /** A row the refill SELECT ... LIMIT 1 may return. */
  predicate FirstQueued(refills: map<RefillId, RefillTask>, job: JobId, r: RefillId) {
    && r in refills && refills[r].job == job && refills[r].status == RefillQueued
    && forall q | q in refills && refills[q].job == job && refills[q].status == RefillQueued ::
         refills[r].createdAt <= refills[q].createdAt
  }

  function Refused(j: Job): Job {
    Deactivated(j).(status := Blocked)
  }

  /** A due job whose provider is not admitted is blocked and its queued refills fail. */
  function Refuse(db: Db, id: JobId): Db
    requires id in db.jobs
  {
    db.(jobs := db.jobs[id := Refused(db.jobs[id])],
        refills := MoveRefills(db.refills, id, RefillQueued, RefillFailed))
  }

  function LeasedBy(j: Job, w: WorkerId, now: Time, seconds: Time): Job {
    j.(status := Leased, hold := HoldOf(w, now, seconds), work := NO_WORK, attempts := j.attempts + 1)
  }

  /** The lease of a claim, with the refill it takes along. */
  function Lease(db: Db, id: JobId, w: WorkerId, refill: Option<RefillId>, now: Time, seconds: Time): Db
    requires id in db.jobs && (refill.Some? ==> refill.value in db.refills)
  {
    var j := db.jobs[id];
    db.(
      jobs := db.jobs[id := LeasedBy(j, w, now, seconds)],
      refills := if refill.None? then db.refills
                 else db.refills[refill.value := db.refills[refill.value].(status := RefillLeased, owner := Some(w))])
  }

  /** What one admission loop did: the jobs it refused in order, then the job it leased, if any. */
  datatype Admission = Admission(refused: seq<JobId>, pick: Option<JobId>, refill: Option<RefillId>)

  predicate Admits(db: Db, now: Time, allowed: set<ProviderId>, a: Admission)
    decreases |a.refused|
  {
    if a.refused == [] then
      match a.pick
      case None => a.refill.None? && forall id | id in db.jobs :: !Due(db.jobs[id], now)
      case Some(id) =>
        && FirstDue(db.jobs, now, id) && db.jobs[id].def.provider in allowed
        && (match a.refill
            case None => !HasQueued(db.refills, id)
            case Some(r) => FirstQueued(db.refills, id, r))
    else
      && FirstDue(db.jobs, now, a.refused[0]) && db.jobs[a.refused[0]].def.provider !in allowed
      && Admits(Refuse(db, a.refused[0]), now, allowed, a.(refused := a.refused[1..]))
  }

  function ClaimNext(db: Db, w: WorkerId, now: Time, seconds: Time, allowed: set<ProviderId>, a: Admission): Db
    requires Admits(db, now, allowed, a)
    decreases |a.refused|
  {
    if a.refused != [] then
      ClaimNext(Refuse(db, a.refused[0]), w, now, seconds, allowed, a.(refused := a.refused[1..]))
    else if a.pick.None? then db
    else Lease(db, a.pick.value, w, a.refill, now, seconds)
  }

  function BeginActive(db: Db, id: JobId, w: WorkerId, lane: Lane, cursor: Cursor, refill: Option<RefillId>,
                       now: Time, seconds: Time): Result<Db>
  {
    if !(Owns(db, id, w) && db.jobs[id].status == Leased) then Raised
    else Ok(db.(jobs := db.jobs[id := db.jobs[id].(
      work := Work(Some(cursor), Some(lane), refill), hold := HoldOf(w, now, seconds))]))
  }

  function Transition(db: Db, id: JobId, w: WorkerId, status: Status, now: Time, seconds: Time): Result<Db> {
    if !Active(status) then Raised
    else if !(Owns(db, id, w) && Active(db.jobs[id].status)) then Raised
    else Ok(db.(jobs := db.jobs[id := db.jobs[id].(
      status := status, hold := HoldOf(w, now, seconds))]))
  }

  /** The lease is renewed if the worker still holds it; Raised stands for False. */
  function Heartbeat(db: Db, id: JobId, w: WorkerId, now: Time, seconds: Time): Result<Db> {
    if !(Owns(db, id, w) && Active(db.jobs[id].status)) then Raised
    else Ok(db.(jobs := db.jobs[id := db.jobs[id].(hold := HoldOf(w, now, seconds))]))
  }

  function Pow2(n: nat): nat {
    if n == 0 then 1 else 2 * Pow2(n - 1)
  }

  function NonNegative(x: Time): (r: Time)
    ensures r >= 0.0
  {
    if x < 0.0 then 0.0 else x
  }

  /** Retry-After if the provider gave one, else capped exponential backoff; plus jitter. */
  function RetryDelay(failures: nat, retryAfter: Option<Time>, jitter: Time): (delay: Time)
    ensures delay >= 0.0
  {
    var backoff := Pow2(if failures < 9 then failures else 9) as real;
    NonNegative(if retryAfter.Some? then retryAfter.value else if backoff < 900.0 then backoff else 900.0)
    + NonNegative(jitter)
  }

  function RetryJob(db: Db, id: JobId, w: WorkerId, retryAfter: Option<Time>, jitter: Time, now: Time): Db {
    if !Owns(db, id, w) then db
    else
      var j := db.jobs[id];
      db.(jobs := db.jobs[id := Deactivated(j).(
            status := if j.pauseRequested then Paused else RetryWait, pauseRequested := false,
            nextRunAt := now + RetryDelay(j.failures + 1, retryAfter, jitter), failures := j.failures + 1)],
          refills := MoveRefills(db.refills, id, RefillLeased, RefillQueued))
  }

  /** Only the job update checks the owner; leased refills of the job fail in any case. */
  function BlockJob(db: Db, id: JobId, w: WorkerId): Db {
    db.(jobs := if Owns(db, id, w) then db.jobs[id := Deactivated(db.jobs[id]).(status := Blocked)] else db.jobs,
        refills := MoveRefills(db.refills, id, RefillLeased, RefillFailed))
  }

  function ReleaseJob(db: Db, id: JobId, w: WorkerId, now: Time): Db {
    if !Owns(db, id, w) then db
    else
      var j := db.jobs[id];
      db.(jobs := db.jobs[id := Deactivated(j).(
            status := if j.pauseRequested then Paused else Queued, pauseRequested := false, nextRunAt := now)],
          refills := MoveRefills(db.refills, id, RefillLeased, RefillQueued))
  }

  // ----- the page commit

  /** The arguments of commit_page; `claim` is the attempt number the caller was given with its lease. */
  datatype PageCommit = PageCommit(
    page: PageId, job: JobId, owner: WorkerId, claim: nat, lane: Lane, refill: Option<RefillId>,
    request: Cursor, next: Option<Cursor>, entries: seq<Entry>, continueFetch: bool, seconds: Time)

  function PageOf(c: PageCommit): Page {
    Page(c.page, c.job, c.lane, c.refill, c.request, c.next, c.owner, c.claim)
  }

  function Continues(c: PageCommit): bool {
    c.continueFetch && c.next.Some?
  }

  /** The status a committed page leaves its job in. */
  function StatusAfter(j: Job, refills: map<RefillId, RefillTask>, c: PageCommit): Status {
    if j.pauseRequested then Paused
    else if c.lane == MainLane && HasQueued(refills, c.job) then Queued
    else if Continues(c) then Leased
    else if c.lane == RefillLane then Queued
    else Succeeded
  }

  function JobAfter(j: Job, refills: map<RefillId, RefillTask>, c: PageCommit, now: Time): Job {
    var status := StatusAfter(j, refills, c);
    var next := j.(
      status := status, pauseRequested := false, failures := 0,
      cursor := if c.lane == MainLane && c.next.Some? then c.next else j.cursor);
    if status == Leased then
      next.(hold := HoldOf(c.owner, now, c.seconds), work := Work(c.next, Some(c.lane), c.refill))
    else
      Deactivated(next).(nextRunAt := if status == Succeeded then now + j.def.scheduleSeconds as real else now)
  }

  function RefillsAfter(refills: map<RefillId, RefillTask>, c: PageCommit): map<RefillId, RefillTask> {
    if c.lane == RefillLane && c.refill.Some? && c.refill.value in refills then
      var r := c.refill.value;
      refills[r := if Continues(c) then refills[r].(cursor := c.next.value)
                   else refills[r].(status := RefillSucceeded, owner := None)]
    else refills
  }

  predicate MayCommit(db: Db, c: PageCommit) {
    Owns(db, c.job, c.owner) && db.jobs[c.job].status == Committing
  }

  /** The database part of commit_page. */
  function CommitPage(db: Db, c: PageCommit, now: Time): Result<Db> {
    if !MayCommit(db, c) then Raised
    else
      var added := PageObservations(c.page, c.job, c.entries);
      var log := db.observations + added;
      var versions := TableOf(log);
      Ok(Db(
        db.jobs[c.job := JobAfter(db.jobs[c.job], db.refills, c, now)],
        db.pages + [PageOf(c)],
        versions,
        log,
        Recomputed(db.gaps, c.job, db.jobs[c.job].def.step, CurrentTimes(versions, c.job), AffectedTimes(db.observations, added)),
        RefillsAfter(db.refills, c),
        RevisionCount(log)))
  }
}
