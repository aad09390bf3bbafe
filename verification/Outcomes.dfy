/**
 * What each transaction of the store answers, in terms of the columns it leaves
 * behind: status, lease, run time, pause request, cursor and refill rows.
 */
module Outcomes {
  import opened Options
  import opened Tables
  import opened Collections
  import opened Transactions
  import opened Protocol

  /** No owner, expiry, heartbeat or active work. */
  predicate Free(j: Job) {
    && j.hold.owner.None? && j.hold.expiresAt.None? && j.hold.heartbeatAt.None?
    && j.work.cursor.None? && j.work.lane.None? && j.work.refill.None?
  }

  /** Held by w from `now` for `seconds`. */
  predicate HeldBy(j: Job, w: WorkerId, now: Time, seconds: Time) {
    j.hold.owner == Some(w) && j.hold.expiresAt == Some(now + seconds) && j.hold.heartbeatAt == Some(now)
  }

  /** The columns that only a claim, a commit or creation writes. */
  predicate SameHistory(j: Job, k: Job) {
    k.def == j.def && k.cursor == j.cursor && k.attempts == j.attempts
  }

  /** The transaction went through and wrote one job row and nothing else but refills. */
  predicate WroteJob(db: Db, after: Db, id: JobId) {
    id in db.jobs && id in after.jobs && after == db.(jobs := db.jobs[id := after.jobs[id]], refills := after.refills)
  }

  /** Leased refills of the job, and only they, are moved to another status and lose their owner. */
  ghost predicate LeasedRefillsMoved(db: Db, after: Db, id: JobId, to: RefillStatus) {
    && after.refills.Keys == db.refills.Keys
    && forall r | r in db.refills ::
         var q, p := db.refills[r], after.refills[r];
         if q.job == id && q.status == RefillLeased
         then p.status == to && p.owner.None? && p == q.(status := p.status, owner := p.owner)
         else p == q
  }

  // ----- the API side

  lemma CreateOutcome(db: Db, id: JobId, provider: ProviderId, start: Cursor, initial: Option<Cursor>,
                      schedule: int, step: Option<Time>, now: Time)
    ensures var r := CreateJob(db, id, provider, start, initial, schedule, step, now);
            && (r.Ok? <==> id !in db.jobs && 1 <= schedule <= 31_536_000
                           && (step.Some? ==> 0.0 < step.value <= 1_000_000_000_000_000.0))
            && (r.Ok? ==>
                  && id in r.value.jobs && r.value == db.(jobs := db.jobs[id := r.value.jobs[id]])
                  && var j := r.value.jobs[id];
                  && j.status == Queued && Free(j) && !j.pauseRequested && j.nextRunAt == now
                  && j.cursor == initial && j.attempts == 0 && j.failures == 0
                  && j.def == Definition(provider, schedule, step, initial, start, now))
  {
  }

  /** An active job is only asked to pause; any other is paused at once. */
  lemma PauseOutcome(db: Db, id: JobId, now: Time)
    ensures var r := PauseJob(db, id, now);
            && (r.Ok? <==> id in db.jobs)
            && (r.Ok? ==>
                  && WroteJob(db, r.value, id) && r.value.refills == db.refills
                  && var j, k := db.jobs[id], r.value.jobs[id];
                  if j.status in {Leased, Fetching, Committing} then k == j.(pauseRequested := true)
                  else
                    && k.status == Paused && !k.pauseRequested && k.nextRunAt == now && k.hold.owner.None?
                    && k.hold.expiresAt.None? && k.hold.heartbeatAt.None?
                    && k.work == j.work && k.failures == j.failures && SameHistory(j, k))
  {
  }

  /** A resumed job is queued, due and unowned, whatever it was before. */
  lemma ResumeOutcome(db: Db, id: JobId, now: Time)
    ensures var r := ResumeJob(db, id, now);
            && (r.Ok? <==> id in db.jobs)
            && (r.Ok? ==>
                  && WroteJob(db, r.value, id) && r.value.refills == db.refills
                  && var j, k := db.jobs[id], r.value.jobs[id];
                  && k.status == Queued && !k.pauseRequested && k.nextRunAt == now && k.hold.owner.None?
                  && k.hold.expiresAt.None? && k.hold.heartbeatAt.None?
                  && k.work == j.work && k.failures == j.failures && SameHistory(j, k))
  {
  }

  /** run_now refuses a paused job, leaves an active one alone, and makes any other due without resuming it. */
  lemma RunNowOutcome(db: Db, id: JobId, now: Time)
    ensures var r := RunNow(db, id, now);
            && (r.Ok? <==> id in db.jobs && db.jobs[id].status != Paused)
            && (r.Ok? ==>
                  if db.jobs[id].status in {Leased, Fetching, Committing} then r.value == db
                  else
                    && WroteJob(db, r.value, id) && r.value.refills == db.refills
                    && r.value.jobs[id] == db.jobs[id].(status := Queued, nextRunAt := now))
  {
  }

  /** A refill is queued for an unresolved gap of the job unless one is pending; paused and active jobs keep their status. */
  lemma QueueRefillOutcome(db: Db, id: JobId, gap: GapKey, at: Cursor, refill: RefillId, now: Time)
    requires refill !in db.refills
    ensures var r := QueueRefill(db, id, gap, at, refill, now);
            && (r.Ok? <==> id in db.jobs && gap.job == id && gap in db.gaps && db.gaps[gap].status != Resolved)
            && (r.Ok? ==>
                  if exists q | q in db.refills :: db.refills[q].gap == gap && db.refills[q].status in {RefillQueued, RefillLeased}
                  then r.value == db
                  else
                    && r.value.refills == db.refills[refill := RefillTask(id, gap, at, RefillQueued, None, now)]
                    && r.value.gaps == db.gaps[gap := db.gaps[gap].(status := BackfillQueued)]
                    && (r.value.pages, r.value.versions, r.value.observations, r.value.revisionsDetected)
                       == (db.pages, db.versions, db.observations, db.revisionsDetected)
                    && id in r.value.jobs && r.value.jobs == db.jobs[id := r.value.jobs[id]]
                    && var j, k := db.jobs[id], r.value.jobs[id];
                    && k == j.(status := k.status, nextRunAt := now)
                    && k.status == if j.status in {Paused, Leased, Fetching, Committing} then j.status else Queued)
  {
  }

  // ----- leases

  lemma RecoverOutcome(db: Db, now: Time)
    ensures var after := RecoverExpired(db, now);
            && after == db.(jobs := after.jobs, refills := after.refills)
            && after.jobs.Keys == db.jobs.Keys && after.refills.Keys == db.refills.Keys
            && (forall id | id in db.jobs ::
                  var j, k := db.jobs[id], after.jobs[id];
                  if j.status in {Leased, Fetching, Committing} && (j.hold.expiresAt.None? || j.hold.expiresAt.value < now)
                  then
                    && k.status == (if j.pauseRequested then Paused else RetryWait) && Free(k) && !k.pauseRequested
                    && k.nextRunAt == now && k.failures == j.failures && SameHistory(j, k)
                  else k == j)
            && (forall r | r in db.refills ::
                  var q, p := db.refills[r], after.refills[r];
                  if q.status == RefillLeased && q.job in db.jobs && after.jobs[q.job] != db.jobs[q.job]
                  then p == q.(status := RefillQueued, owner := None)
                  else p == q)
  {
    var after := RecoverExpired(db, now);
    forall id | id in db.jobs ensures after.jobs[id] != db.jobs[id] <==> Expired(db.jobs[id], now) {
      assert Expired(db.jobs[id], now) ==> after.jobs[id].status == Paused || after.jobs[id].status == RetryWait;
    }
  }

  /** Beginning, moving and beating are open exactly to the holder, and renew the lease. */
  lemma HoldingOutcome(db: Db, id: JobId, w: WorkerId, lane: Lane, cursor: Cursor, refill: Option<RefillId>,
                       status: Status, now: Time, seconds: Time)
    ensures var held := id in db.jobs && db.jobs[id].hold.owner == Some(w);
            var active := held && db.jobs[id].status in {Leased, Fetching, Committing};
            var begun := BeginActive(db, id, w, lane, cursor, refill, now, seconds);
            var moved := Transition(db, id, w, status, now, seconds);
            var beaten := Heartbeat(db, id, w, now, seconds);
            && (begun.Ok? <==> held && db.jobs[id].status == Leased)
            && (moved.Ok? <==> active && status in {Leased, Fetching, Committing})
            && (beaten.Ok? <==> active)
            && (begun.Ok? ==> Renewed(db, begun.value, id, w, Leased, Work(Some(cursor), Some(lane), refill), now, seconds))
            && (moved.Ok? ==> Renewed(db, moved.value, id, w, status, db.jobs[id].work, now, seconds))
            && (beaten.Ok? ==> Renewed(db, beaten.value, id, w, db.jobs[id].status, db.jobs[id].work, now, seconds))
  {
  }

  predicate Renewed(db: Db, after: Db, id: JobId, w: WorkerId, status: Status, work: Work, now: Time, seconds: Time) {
    && WroteJob(db, after, id) && after.refills == db.refills
    && after.jobs[id].status == status && after.jobs[id].work == work && HeldBy(after.jobs[id], w, now, seconds)
    && after.jobs[id] == db.jobs[id].(status := status, work := work, hold := after.jobs[id].hold)
  }

  function Positive(x: Time): Time {
    if x < 0.0 then 0.0 else x
  }

  /** Retry-After is obeyed; otherwise the wait doubles with every failure up to 512 seconds. Jitter comes on top. */
  lemma DelayOutcome(failures: nat, retryAfter: Option<Time>, jitter: Time)
    ensures retryAfter.Some? ==> RetryDelay(failures, retryAfter, jitter) == Positive(retryAfter.value) + Positive(jitter)
    ensures RetryDelay(0, None, jitter) == 1.0 + Positive(jitter)
    ensures failures < 9 ==>
              RetryDelay(failures + 1, None, 0.0) == 2.0 * RetryDelay(failures, None, 0.0)
    ensures retryAfter.None? && failures >= 9 ==> RetryDelay(failures, None, jitter) == 512.0 + Positive(jitter)
    ensures RetryDelay(failures, None, jitter) == RetryDelay(failures, None, 0.0) + Positive(jitter)
  {
    assert Pow2(9) == 512 by {
      assert Pow2(4) == 16;
      assert Pow2(8) == 256;
    }
    PowersGrow(if failures < 9 then failures else 9, 9);
    PowersGrow(if failures + 1 < 9 then failures + 1 else 9, 9);
  }

  lemma {:induction false} PowersGrow(m: nat, n: nat)
    requires m <= n
    ensures Pow2(m) <= Pow2(n)
  {
    if m < n {
      PowersGrow(m, n - 1);
    }
  }

  /** The holder's retry waits out the delay; leased refills of the job are queued again. Nobody else's retry does anything. */
  lemma RetryOutcome(db: Db, id: JobId, w: WorkerId, retryAfter: Option<Time>, jitter: Time, now: Time)
    ensures var after := RetryJob(db, id, w, retryAfter, jitter, now);
            if !(id in db.jobs && db.jobs[id].hold.owner == Some(w)) then after == db
            else
              && WroteJob(db, after, id) && LeasedRefillsMoved(db, after, id, RefillQueued)
              && var j, k := db.jobs[id], after.jobs[id];
              && k.status == (if j.pauseRequested then Paused else RetryWait) && Free(k) && !k.pauseRequested
              && k.failures == j.failures + 1 && SameHistory(j, k)
              && k.nextRunAt == now + RetryDelay(j.failures + 1, retryAfter, jitter)
              && (retryAfter.Some? ==> k.nextRunAt == now + Positive(retryAfter.value) + Positive(jitter))
              && k.nextRunAt >= now
  {
    DelayOutcome(0, retryAfter, jitter);
  }

  /** The holder's block stops the job and keeps a pause request; leased refills of the job fail whoever asks. */
  lemma BlockOutcome(db: Db, id: JobId, w: WorkerId)
    ensures var after := BlockJob(db, id, w);
            && LeasedRefillsMoved(db, after, id, RefillFailed)
            && if !(id in db.jobs && db.jobs[id].hold.owner == Some(w)) then after == db.(refills := after.refills)
               else
                 && WroteJob(db, after, id)
                 && var j, k := db.jobs[id], after.jobs[id];
                 && k.status == Blocked && Free(k) && k.pauseRequested == j.pauseRequested
                 && k.nextRunAt == j.nextRunAt && k.failures == j.failures && SameHistory(j, k)
  {
  }

  /** The holder's release queues the job, due now, or pauses it; leased refills of the job are queued again. */
  lemma ReleaseOutcome(db: Db, id: JobId, w: WorkerId, now: Time)
    ensures var after := ReleaseJob(db, id, w, now);
            if !(id in db.jobs && db.jobs[id].hold.owner == Some(w)) then after == db
            else
              && WroteJob(db, after, id) && LeasedRefillsMoved(db, after, id, RefillQueued)
              && var j, k := db.jobs[id], after.jobs[id];
              && k.status == (if j.pauseRequested then Paused else Queued) && Free(k) && !k.pauseRequested
              && k.nextRunAt == now && k.failures == j.failures && SameHistory(j, k)
  {
  }

  // ----- the page commit

  /** Whether a refill of the job waits. */
  ghost predicate RefillWaits(db: Db, id: JobId) {
    exists r | r in db.refills :: db.refills[r].job == id && db.refills[r].status == RefillQueued
  }

  /** commit_page goes through exactly for the holder of a committing job. */
  lemma CommitGoesThrough(db: Db, c: PageCommit, now: Time)
    ensures CommitPage(db, c, now).Ok? <==>
              c.job in db.jobs && db.jobs[c.job].hold.owner == Some(c.owner) && db.jobs[c.job].status == Committing
  {
  }

  /** The five ways a job goes on after a page, each by its own condition. */
  lemma CommitStatus(db: Db, c: PageCommit, now: Time)
    requires CommitPage(db, c, now).Ok?
    ensures var j, k := db.jobs[c.job], CommitPage(db, c, now).value.jobs[c.job];
            var givesWay := c.lane == MainLane && RefillWaits(db, c.job);
            var goesOn := c.continueFetch && c.next.Some?;
            && (k.status == Paused <==> j.pauseRequested)
            && (k.status == Leased <==> !j.pauseRequested && !givesWay && goesOn)
            && (k.status == Succeeded <==> !j.pauseRequested && !givesWay && !goesOn && c.lane == MainLane)
            && (k.status == Queued <==> !j.pauseRequested && (givesWay || (!goesOn && c.lane == RefillLane)))
  {
    assert RefillWaits(db, c.job) <==> HasQueued(db.refills, c.job);
  }

  /** The job row of a commit: kept lease or none, when it is due, its cursor, and what is reset. */
  lemma CommitRowOutcome(db: Db, c: PageCommit, now: Time)
    requires CommitPage(db, c, now).Ok?
    ensures var after := CommitPage(db, c, now).value;
            var j, k := db.jobs[c.job], after.jobs[c.job];
            && after.jobs == db.jobs[c.job := k] && !k.pauseRequested && k.failures == 0
            && k.def == j.def && k.attempts == j.attempts
            && k.cursor == (if c.lane == MainLane && c.next.Some? then c.next else j.cursor)
            && (if k.status == Leased
                then HeldBy(k, c.owner, now, c.seconds) && k.nextRunAt == j.nextRunAt
                     && k.work.cursor == c.next && k.work.lane == Some(c.lane) && k.work.refill == c.refill
                else Free(k) && k.nextRunAt == if k.status == Succeeded then now + j.def.scheduleSeconds as real else now)
  {
  }

  /** A refill page finishes its refill or moves its cursor on; no other refill row changes. */
  lemma CommitRefillOutcome(db: Db, c: PageCommit, now: Time)
    requires CommitPage(db, c, now).Ok?
    ensures var refills := CommitPage(db, c, now).value.refills;
            && refills.Keys == db.refills.Keys
            && forall r | r in db.refills ::
                 if !(c.lane == RefillLane && c.refill == Some(r)) then refills[r] == db.refills[r]
                 else if c.continueFetch && c.next.Some? then refills[r] == db.refills[r].(cursor := c.next.value)
                 else refills[r] == db.refills[r].(status := RefillSucceeded, owner := None)
  {
  }

  // ----- the admission of a claim

  /** What an admission leaves of the job it picked: held, in the status from which work begins, one attempt more. */
  predicate Claimed(j: Job, k: Job, w: WorkerId, now: Time, seconds: Time) {
    && k.status == Leased && HeldBy(k, w, now, seconds)
    && k.work.cursor.None? && k.work.lane.None? && k.work.refill.None?
    && k.attempts == j.attempts + 1 && k.def == j.def && k.cursor == j.cursor
    && k.pauseRequested == j.pauseRequested && k.failures == j.failures && k.nextRunAt == j.nextRunAt
  }

  /** A job a claim may take: waiting, due and not asked to pause. */
  predicate Takeable(j: Job, now: Time) {
    j.status in {Queued, RetryWait, Succeeded} && j.nextRunAt <= now && !j.pauseRequested
  }

  /** ORDER BY next_run_at, created_at. */
  predicate Before(a: Job, b: Job) {
    a.nextRunAt < b.nextRunAt || (a.nextRunAt == b.nextRunAt && a.def.createdAt < b.def.createdAt)
  }

  /** The picked job is leased to the worker, and no takeable job of an admitted provider comes before it. */
  lemma {:induction false} PickOutcome(db: Db, w: WorkerId, now: Time, seconds: Time, allowed: set<ProviderId>, a: Admission)
    requires Admits(db, now, allowed, a)
    ensures var after := ClaimNext(db, w, now, seconds, allowed, a);
            && (a.pick.None? ==> forall id | id in db.jobs && db.jobs[id].def.provider in allowed :: !Takeable(db.jobs[id], now))
            && (a.pick.Some? ==>
                  var id := a.pick.value;
                  && id in db.jobs && id in after.jobs && Takeable(db.jobs[id], now) && db.jobs[id].def.provider in allowed
                  && Claimed(db.jobs[id], after.jobs[id], w, now, seconds)
                  && forall o | o in db.jobs && Takeable(db.jobs[o], now) && db.jobs[o].def.provider in allowed ::
                       !Before(db.jobs[o], db.jobs[id]))
    decreases |a.refused|
  {
    if a.refused != [] {
      var mid, rest := Refuse(db, a.refused[0]), a.(refused := a.refused[1..]);
      PickOutcome(mid, w, now, seconds, allowed, rest);
      forall id | id in db.jobs && db.jobs[id].def.provider in allowed ensures mid.jobs[id] == db.jobs[id] {
      }
    }
  }

  /** The worker that got the claim can begin at once. */
  lemma ClaimedCanBegin(db: Db, w: WorkerId, now: Time, seconds: Time, allowed: set<ProviderId>, a: Admission,
                        lane: Lane, cursor: Cursor, refill: Option<RefillId>, later: Time)
    requires Admits(db, now, allowed, a) && a.pick.Some?
    ensures BeginActive(ClaimNext(db, w, now, seconds, allowed, a), a.pick.value, w, lane, cursor, refill, later, seconds).Ok?
  {
    PickOutcome(db, w, now, seconds, allowed, a);
  }

  /** A refused job: blocked and free, and its waiting refills have failed. */
  predicate TurnedAway(db: Db, after: Db, id: JobId) {
    && id in db.jobs && id in after.jobs && after.jobs[id].status == Blocked && Free(after.jobs[id])
    && after.jobs[id].pauseRequested == db.jobs[id].pauseRequested && SameHistory(db.jobs[id], after.jobs[id])
    && after.refills.Keys == db.refills.Keys
    && (forall r | r in db.refills && db.refills[r].job == id ::
          if db.refills[r].status == RefillQueued then after.refills[r] == db.refills[r].(status := RefillFailed, owner := None)
          else after.refills[r] == db.refills[r])
  }

  /** The jobs an admission refuses are takeable, of other providers, and are turned away. */
  lemma {:induction false} RefusalOutcome(db: Db, w: WorkerId, now: Time, seconds: Time, allowed: set<ProviderId>, a: Admission)
    requires Admits(db, now, allowed, a)
    ensures forall id | id in a.refused ::
              && id in db.jobs && Takeable(db.jobs[id], now) && db.jobs[id].def.provider !in allowed && a.pick != Some(id)
              && TurnedAway(db, ClaimNext(db, w, now, seconds, allowed, a), id)
    decreases |a.refused|
  {
    if a.refused != [] {
      var first, rest := a.refused[0], a.(refused := a.refused[1..]);
      var mid, after := Refuse(db, first), ClaimNext(db, w, now, seconds, allowed, a);
      RefusalOutcome(mid, w, now, seconds, allowed, rest);
      RestOfAdmission(mid, w, now, seconds, allowed, rest, first);
      forall id | id in a.refused
        ensures && id in db.jobs && Takeable(db.jobs[id], now) && db.jobs[id].def.provider !in allowed && a.pick != Some(id)
                && TurnedAway(db, after, id)
      {
        if id != first {
          assert id in rest.refused;
          StillTurnedAway(db, after, first, id);
        }
      }
    }
  }

  /** Refusing one job does not touch another, so what happens to that one afterwards is measured from before. */
  lemma StillTurnedAway(db: Db, after: Db, first: JobId, id: JobId)
    requires first in db.jobs && first != id && TurnedAway(Refuse(db, first), after, id)
    ensures id in db.jobs && Refuse(db, first).jobs[id] == db.jobs[id] && TurnedAway(db, after, id)
  {
    var mid := Refuse(db, first);
    assert forall r | r in db.refills && db.refills[r].job == id :: mid.refills[r] == db.refills[r];
  }

  /** An admission leaves a job that is not takeable, and its refills, as they are. */
  lemma {:induction false} RestOfAdmission(db: Db, w: WorkerId, now: Time, seconds: Time, allowed: set<ProviderId>, a: Admission, id: JobId)
    requires Admits(db, now, allowed, a) && id in db.jobs && !Takeable(db.jobs[id], now)
    ensures var after := ClaimNext(db, w, now, seconds, allowed, a);
            && a.pick != Some(id) && id !in a.refused && id in after.jobs && after.jobs[id] == db.jobs[id]
            && after.refills.Keys == db.refills.Keys
            && forall r | r in db.refills && db.refills[r].job == id :: after.refills[r] == db.refills[r]
    decreases |a.refused|
  {
    if a.refused != [] {
      RestOfAdmission(Refuse(db, a.refused[0]), w, now, seconds, allowed, a.(refused := a.refused[1..]), id);
    }
  }

  /** The refill a claim takes is its job's oldest waiting one and is leased to the worker; without one no refill row of the job moves. */
  lemma {:induction false} TakenRefillOutcome(db: Db, w: WorkerId, now: Time, seconds: Time, allowed: set<ProviderId>, a: Admission)
    requires Admits(db, now, allowed, a) && a.pick.Some?
    ensures var after, id := ClaimNext(db, w, now, seconds, allowed, a), a.pick.value;
            && after.refills.Keys == db.refills.Keys
            && (a.refill.None? <==> !RefillWaits(db, id))
            && (a.refill.Some? ==>
                  var r := a.refill.value;
                  && r in db.refills && db.refills[r].job == id && db.refills[r].status == RefillQueued
                  && after.refills[r] == db.refills[r].(status := RefillLeased, owner := Some(w))
                  && forall q | q in db.refills && db.refills[q].job == id && db.refills[q].status == RefillQueued ::
                       db.refills[r].createdAt <= db.refills[q].createdAt)
            && forall q | q in db.refills && db.refills[q].job == id && a.refill != Some(q) :: after.refills[q] == db.refills[q]
    decreases |a.refused|
  {
    if a.refused != [] {
      var first, rest := a.refused[0], a.(refused := a.refused[1..]);
      var mid, id := Refuse(db, first), a.pick.value;
      TakenRefillOutcome(mid, w, now, seconds, allowed, rest);
      PickOutcome(mid, w, now, seconds, allowed, rest);
      assert first != id;
      assert forall r | r in db.refills && db.refills[r].job == id :: mid.refills[r] == db.refills[r];
    }
  }

  /** Undisturbed, a claim leads to a committed page: no step in between refuses the worker. */
  lemma UndisturbedClaimCommits(db: Db, now: Time, seconds: Time, allowed: set<ProviderId>, a: Admission,
                                cursor: Cursor, c: PageCommit)
    requires Admits(db, now, allowed, a) && a.pick == Some(c.job)
    ensures var claimed := ClaimNext(db, c.owner, now, seconds, allowed, a);
            var begun := BeginActive(claimed, c.job, c.owner, c.lane, cursor, c.refill, now, seconds);
            && begun.Ok?
            && var fetching := Transition(begun.value, c.job, c.owner, Fetching, now, seconds);
            && fetching.Ok?
            && var committing := Transition(fetching.value, c.job, c.owner, Committing, now, seconds);
            && committing.Ok? && CommitPage(committing.value, c, now).Ok?
            && CommitPage(committing.value, c, now).value.pages == db.pages + [PageOf(c)]
  {
    hide ClaimNext, CommitPage;
    PickOutcome(db, c.owner, now, seconds, allowed, a);
    ClaimHasEffect(db, c.owner, now, seconds, allowed, a);
    var claimed := ClaimNext(db, c.owner, now, seconds, allowed, a);
    var begun := BeginActive(claimed, c.job, c.owner, c.lane, cursor, c.refill, now, seconds).value;
    var fetching := Transition(begun, c.job, c.owner, Fetching, now, seconds).value;
    var committing := Transition(fetching, c.job, c.owner, Committing, now, seconds).value;
    CommitGoesThrough(committing, c, now);
    CommitAddsPage(committing, c, now);
  }

  lemma CommitAddsPage(db: Db, c: PageCommit, now: Time)
    requires CommitPage(db, c, now).Ok?
    ensures CommitPage(db, c, now).value.pages == db.pages + [PageOf(c)]
  {
  }
}
