/**
 * The page loop of one claim (mining/worker.py, _process_job) as functions on the
 * database, with what the rest of the system does between its transactions; and
 * what each way a turn can go leaves behind.
 */
module WorkerTurns {
  import opened Options
  import opened Tables
  import opened Revisions
  import T = Transactions
  import P = Protocol
  import O = Outcomes

  /** What one turn of the page loop meets outside the store. */
  datatype Outcome =
    | StopRequested
    | RateWaitStopped
    | ProviderBlocked
    | ProviderInvalid
    | ProviderRetryable(retryAfter: Option<Time>)
    | ProviderFailed
    | Fetched(page: PageId, raw: string, next: Option<Cursor>, continueFetch: bool, entries: seq<Entry>)

  /** What the claim handed to the worker. */
  datatype Assignment = Assignment(job: JobId, claim: nat, lane: Lane, refill: Option<RefillId>, cursor: Cursor)

  /** What others may do to the store: anything that keeps its tables, gives `w` no lease and adds no page of `w`. */
  predicate Tolerated(before: Db, after: Db, w: WorkerId) {
    && (forall id | id in after.jobs :: T.Owns(after, id, w) ==> T.Owns(before, id, w))
    && before.pages <= after.pages
    && (forall i | |before.pages| <= i < |after.pages| :: after.pages[i].owner != w)
    && after.versions == TableOf(after.observations) && after.revisionsDetected == RevisionCount(after.observations)
  }

  /** The database when the worker comes back to it: `world`, if the rest of the system may have made it so. */
  function Met(db: Db, world: Db, w: WorkerId): Db {
    if Tolerated(db, world, w) then world else db
  }

  /** The arguments of the commit of a fetched page. */
  function CommitOf(w: WorkerId, a: Assignment, cursor: Cursor, f: Outcome, seconds: Time): T.PageCommit
    requires f.Fetched?
  {
    T.PageCommit(f.page, a.job, w, a.claim, a.lane, a.refill, cursor, f.next, f.entries, f.continueFetch, seconds)
  }

  /** A committed page, with the fingerprint the loop compares. */
  datatype Committed = Committed(page: Page, raw: string)

  /** How a turn of the loop ends. */
  datatype Turn = Finished | Continue(next: Cursor)

  datatype Ending = Ending(db: Db, turn: Turn, committed: Option<Committed>)

  function GaveUp(db: Db): Ending {
    Ending(db, Finished, None)
  }

  /** The next cursor is the request itself, or this page was seen before with this next cursor. */
  predicate NoProgress(f: Outcome, cursor: Cursor, seen: set<(string, Cursor)>)
    requires f.Fetched?
  {
    f.next == Some(cursor) || (f.next.Some? && (f.raw, f.next.value) in seen)
  }

  /** The database when the provider answers: after the transition to fetching, and what others did since. */
  function AtAnswer(db: Db, w: WorkerId, a: Assignment, worlds: seq<Db>, now: Time, seconds: Time): Db
    requires |worlds| == 3
  {
    Met(P.OrKeep(T.Transition(db, a.job, w, Fetching, now, seconds), db), worlds[0], w)
  }

  /** The database when the page is committed: after the transition to committing, and what others did since. */
  function AtCommit(answer: Db, w: WorkerId, a: Assignment, worlds: seq<Db>, now: Time, seconds: Time): Db
    requires |worlds| == 3
  {
    Met(P.OrKeep(T.Transition(answer, a.job, w, Committing, now, seconds), answer), worlds[1], w)
  }

  /** transition to fetching, fetch, transition to committing, commit; every failure gives the lease back. */
  function FetchTurn(db: Db, w: WorkerId, a: Assignment, cursor: Cursor, f: Outcome, seen: set<(string, Cursor)>,
                     worlds: seq<Db>, now: Time, seconds: Time, jitter: Time): Ending
    requires |worlds| == 3 && !f.StopRequested? && !f.RateWaitStopped?
  {
    var answer := AtAnswer(db, w, a, worlds, now, seconds);
    if T.Transition(db, a.job, w, Fetching, now, seconds).Raised? then
      GaveUp(T.RetryJob(answer, a.job, w, None, jitter, now))
    else match f
      case ProviderBlocked => GaveUp(T.BlockJob(answer, a.job, w))
      case ProviderInvalid => GaveUp(T.BlockJob(answer, a.job, w))
      case ProviderRetryable(retryAfter) => GaveUp(T.RetryJob(answer, a.job, w, retryAfter, jitter, now))
      case ProviderFailed => GaveUp(T.RetryJob(answer, a.job, w, None, jitter, now))
      case Fetched(_, _, _, _, _) =>
        if NoProgress(f, cursor, seen) then GaveUp(T.BlockJob(answer, a.job, w))
        else CommitTurn(answer, w, a, cursor, f, worlds, now, seconds, jitter)
  }

  function CommitTurn(answer: Db, w: WorkerId, a: Assignment, cursor: Cursor, f: Outcome,
                      worlds: seq<Db>, now: Time, seconds: Time, jitter: Time): Ending
    requires |worlds| == 3 && f.Fetched?
  {
    var db := AtCommit(answer, w, a, worlds, now, seconds);
    var c := CommitOf(w, a, cursor, f, seconds);
    var done := T.CommitPage(db, c, now);
    if T.Transition(answer, a.job, w, Committing, now, seconds).Raised? then
      GaveUp(T.RetryJob(db, a.job, w, None, jitter, now))
    else if done.Raised? then
      GaveUp(T.RetryJob(Met(db, worlds[2], w), a.job, w, None, jitter, now))
    else
      Ending(done.value,
             if done.value.jobs[a.job].status == Leased && f.next.Some? then Continue(f.next.value) else Finished,
             Some(Committed(T.PageOf(c), f.raw)))
  }

  /** One turn: stop and pause requests release the job, otherwise a page is fetched and committed. */
  function WholeTurn(db: Db, w: WorkerId, a: Assignment, cursor: Cursor, f: Outcome, seen: set<(string, Cursor)>,
                     worlds: seq<Db>, now: Time, seconds: Time, jitter: Time): Ending
    requires |worlds| == 5
  {
    var start := Met(db, worlds[0], w);
    if f.StopRequested? || f.RateWaitStopped? || (T.Owns(start, a.job, w) && start.jobs[a.job].pauseRequested) then
      GaveUp(T.ReleaseJob(Met(start, worlds[1], w), a.job, w, now))
    else FetchTurn(start, w, a, cursor, f, seen, worlds[2..], now, seconds, jitter)
  }

  // ----- what each way leaves behind

  /** The job waits for a retry, or is paused if that was asked, with the failure counted. */
  predicate Retries(before: Db, after: Db, id: JobId)
    requires id in before.jobs
  {
    && id in after.jobs && O.Free(after.jobs[id])
    && after.jobs[id].status == (if before.jobs[id].pauseRequested then Paused else RetryWait)
    && after.jobs[id].failures == before.jobs[id].failures + 1
  }

  /** A turn that began, seen from the provider's answer, while the worker still holds the job. */
  lemma AnswerOutcome(db: Db, w: WorkerId, a: Assignment, cursor: Cursor, f: Outcome, seen: set<(string, Cursor)>,
                      worlds: seq<Db>, now: Time, seconds: Time, jitter: Time)
    requires |worlds| == 3 && !f.StopRequested? && !f.RateWaitStopped?
    requires T.Transition(db, a.job, w, Fetching, now, seconds).Ok?
    requires T.Owns(AtAnswer(db, w, a, worlds, now, seconds), a.job, w)
    ensures var before, e := AtAnswer(db, w, a, worlds, now, seconds), FetchTurn(db, w, a, cursor, f, seen, worlds, now, seconds, jitter);
            && (f.ProviderBlocked? || f.ProviderInvalid? || (f.Fetched? && NoProgress(f, cursor, seen)) ==>
                  && e.turn == Finished && e.committed == None && e.db.pages == before.pages
                  && a.job in e.db.jobs && e.db.jobs[a.job].status == Blocked
                  && O.LeasedRefillsMoved(before, e.db, a.job, RefillFailed))
            && (f.ProviderRetryable? || f.ProviderFailed? ==>
                  && e.turn == Finished && e.committed == None && e.db.pages == before.pages
                  && Retries(before, e.db, a.job) && O.LeasedRefillsMoved(before, e.db, a.job, RefillQueued)
                  && e.db.jobs[a.job].nextRunAt >= now
                  && (f.ProviderRetryable? && f.retryAfter.Some? ==>
                        e.db.jobs[a.job].nextRunAt == now + O.Positive(f.retryAfter.value) + O.Positive(jitter)))
  {
    hide T.RetryJob, T.BlockJob, T.CommitPage, T.RetryDelay;
    var before := AtAnswer(db, w, a, worlds, now, seconds);
    O.BlockOutcome(before, a.job, w);
    O.RetryOutcome(before, a.job, w, if f.ProviderRetryable? then f.retryAfter else None, jitter, now);
  }

  /** A fetched page that makes progress is committed whenever the worker still holds the job at the commit. */
  lemma FetchedOutcome(db: Db, w: WorkerId, a: Assignment, cursor: Cursor, f: Outcome, seen: set<(string, Cursor)>,
                       worlds: seq<Db>, now: Time, seconds: Time, jitter: Time)
    requires |worlds| == 3 && f.Fetched? && !NoProgress(f, cursor, seen)
    requires T.Transition(db, a.job, w, Fetching, now, seconds).Ok?
    requires T.Transition(AtAnswer(db, w, a, worlds, now, seconds), a.job, w, Committing, now, seconds).Ok?
    ensures var before := AtCommit(AtAnswer(db, w, a, worlds, now, seconds), w, a, worlds, now, seconds);
            var e, c := FetchTurn(db, w, a, cursor, f, seen, worlds, now, seconds, jitter), CommitOf(w, a, cursor, f, seconds);
            if T.Owns(before, a.job, w) && before.jobs[a.job].status == Committing then
              && e.committed == Some(Committed(T.PageOf(c), f.raw)) && e.db.pages == before.pages + [T.PageOf(c)]
              && (e.turn.Continue? <==> a.job in e.db.jobs && e.db.jobs[a.job].status == Leased)
              && (e.turn.Continue? ==> f.next == Some(e.turn.next))
            else
              && e.turn == Finished && e.committed == None
              && var last := Met(before, worlds[2], w);
              && e.db.pages == last.pages && (T.Owns(last, a.job, w) ==> Retries(last, e.db, a.job))
  {
    hide T.CommitPage, T.RetryJob;
    var before := AtCommit(AtAnswer(db, w, a, worlds, now, seconds), w, a, worlds, now, seconds);
    var c := CommitOf(w, a, cursor, f, seconds);
    O.CommitGoesThrough(before, c, now);
    O.RetryOutcome(Met(before, worlds[2], w), a.job, w, None, jitter, now);
    if T.CommitPage(before, c, now).Ok? {
      CommitTurnStatus(before, c, now);
    }
  }

  lemma CommitTurnStatus(db: Db, c: T.PageCommit, now: Time)
    requires T.CommitPage(db, c, now).Ok?
    ensures c.job in T.CommitPage(db, c, now).value.jobs
    ensures T.CommitPage(db, c, now).value.jobs[c.job].status == Leased ==> c.next.Some?
    ensures T.CommitPage(db, c, now).value.pages == db.pages + [T.PageOf(c)]
  {
  }

  /** A turn that cannot begin, because the job is no longer the worker's, retries only what the worker still owns. */
  lemma LostOutcome(db: Db, w: WorkerId, a: Assignment, cursor: Cursor, f: Outcome, seen: set<(string, Cursor)>,
                    worlds: seq<Db>, now: Time, seconds: Time, jitter: Time)
    requires |worlds| == 3 && !f.StopRequested? && !f.RateWaitStopped?
    requires T.Transition(db, a.job, w, Fetching, now, seconds).Raised?
    ensures var before, e := Met(db, worlds[0], w), FetchTurn(db, w, a, cursor, f, seen, worlds, now, seconds, jitter);
            && e.turn == Finished && e.committed == None
            && if T.Owns(before, a.job, w) then Retries(before, e.db, a.job) else e.db == before
  {
    O.RetryOutcome(Met(db, worlds[0], w), a.job, w, None, jitter, now);
  }

  /** A stop, and a pause request seen at the start of a turn, queue the job or pause it, and fetch nothing. */
  lemma StopOutcome(db: Db, w: WorkerId, a: Assignment, cursor: Cursor, f: Outcome, seen: set<(string, Cursor)>,
                    worlds: seq<Db>, now: Time, seconds: Time, jitter: Time)
    requires |worlds| == 5
    requires var start := Met(db, worlds[0], w);
             f.StopRequested? || f.RateWaitStopped? || (T.Owns(start, a.job, w) && start.jobs[a.job].pauseRequested)
    ensures var before := Met(Met(db, worlds[0], w), worlds[1], w);
            var e := WholeTurn(db, w, a, cursor, f, seen, worlds, now, seconds, jitter);
            && e.turn == Finished && e.committed == None && e.db.pages == before.pages
            && if T.Owns(before, a.job, w) then
                 && a.job in e.db.jobs && O.Free(e.db.jobs[a.job]) && e.db.jobs[a.job].nextRunAt == now
                 && e.db.jobs[a.job].status == (if before.jobs[a.job].pauseRequested then Paused else Queued)
                 && O.LeasedRefillsMoved(before, e.db, a.job, RefillQueued)
               else e.db == before
  {
    O.ReleaseOutcome(Met(Met(db, worlds[0], w), worlds[1], w), a.job, w, now);
  }

  // ----- a whole run

  /** The next cursors of the pages so far are remembered with their raw pages. */
  function RunFrom(db: Db, w: WorkerId, a: Assignment, cursor: Cursor, maxPages: nat, done: seq<Committed>,
                   seen: set<(string, Cursor)>, outcomes: seq<Outcome>, worlds: nat -> seq<Db>, now: nat -> Time,
                   seconds: Time, jitter: Time): (Db, seq<Committed>)
    requires |done| < maxPages && forall n :: |worlds(n)| == 5
    decreases maxPages - |done|
  {
    var n := |done|;
    var f := if n < |outcomes| then outcomes[n] else StopRequested;
    var e := WholeTurn(db, w, a, cursor, f, seen, worlds(n), now(n), seconds, jitter);
    var more := if e.committed.Some? then done + [e.committed.value] else done;
    if e.turn.Finished? || e.committed.None? then (e.db, more)
    else if |more| >= maxPages then
      (T.ReleaseJob(Met(e.db, worlds(n + 1)[0], w), a.job, w, now(n)), more)
    else
      RunFrom(e.db, w, a, e.turn.next, maxPages, more, seen + {(e.committed.value.raw, e.turn.next)},
              outcomes, worlds, now, seconds, jitter)
  }

  /** _process_job: at least one and at most the configured number of pages. */
  function RunOf(db: Db, w: WorkerId, a: Assignment, configuredPages: int, outcomes: seq<Outcome>,
                 worlds: nat -> seq<Db>, now: nat -> Time, seconds: Time, jitter: Time): (Db, seq<Committed>)
    requires forall n :: |worlds(n)| == 5
  {
    var begun := T.BeginActive(db, a.job, w, a.lane, a.cursor, a.refill, now(0), seconds);
    if begun.Raised? then (T.RetryJob(Met(db, worlds(0)[0], w), a.job, w, None, jitter, now(0)), [])
    else
      RunFrom(begun.value, w, a, a.cursor, if configuredPages < 1 then 1 else configuredPages, [], {},
              outcomes, worlds, now, seconds, jitter)
  }

  // ----- an undisturbed run

  /** Nobody else changes anything while the worker is at it. */
  ghost predicate Undisturbed(worlds: seq<Db>, w: WorkerId) {
    forall db: Db, i | 0 <= i < |worlds| :: Met(db, worlds[i], w) == db
  }

  /** The worker holds the job, nobody asked to pause it, and no refill of it waits to be preferred. */
  predicate InHand(db: Db, w: WorkerId, a: Assignment) {
    && T.Owns(db, a.job, w) && db.jobs[a.job].status == Leased && !db.jobs[a.job].pauseRequested
    && (a.lane == MainLane ==> !T.HasQueued(db.refills, a.job))
  }

  /** An undisturbed turn that fetches a page with more to come commits it and goes on from its next cursor. */
  lemma UndisturbedTurn(db: Db, w: WorkerId, a: Assignment, cursor: Cursor, f: Outcome, seen: set<(string, Cursor)>,
                        worlds: seq<Db>, now: Time, seconds: Time, jitter: Time)
    requires |worlds| == 5 && Undisturbed(worlds, w) && InHand(db, w, a)
    requires f.Fetched? && !NoProgress(f, cursor, seen) && f.continueFetch && f.next.Some?
    ensures var e := WholeTurn(db, w, a, cursor, f, seen, worlds, now, seconds, jitter);
            && e.turn == Continue(f.next.value) && e.committed == Some(Committed(T.PageOf(CommitOf(w, a, cursor, f, seconds)), f.raw))
            && InHand(e.db, w, a)
  {
    hide Met, T.CommitPage;
    var c := CommitOf(w, a, cursor, f, seconds);
    assert worlds[2..][0] == worlds[2] && worlds[2..][1] == worlds[3];
    assert Met(db, worlds[0], w) == db;
    var fetching := T.Transition(db, a.job, w, Fetching, now, seconds).value;
    assert Met(fetching, worlds[2], w) == fetching;
    var committing := T.Transition(fetching, a.job, w, Committing, now, seconds).value;
    assert Met(committing, worlds[3], w) == committing;
    O.CommitGoesThrough(committing, c, now);
    StaysInHand(committing, w, a, c, now);
  }

  lemma StaysInHand(db: Db, w: WorkerId, a: Assignment, c: T.PageCommit, now: Time)
    requires T.CommitPage(db, c, now).Ok? && c.owner == w && c.job == a.job && c.lane == a.lane
    requires c.continueFetch && c.next.Some? && !db.jobs[c.job].pauseRequested
    requires a.lane == MainLane ==> !T.HasQueued(db.refills, a.job)
    ensures InHand(T.CommitPage(db, c, now).value, w, a)
  {
  }

  predicate MovesOn(outcomes: seq<Outcome>, i: nat, cursor: Cursor)
    requires i < |outcomes| && forall j | 0 <= j < |outcomes| :: outcomes[j].Fetched?
  {
    outcomes[i].next != if i == 0 then Some(cursor) else outcomes[i - 1].next
  }

  /** Every page of these outcomes has more to come, makes progress on the one before, and is new. */
  predicate Progressing(outcomes: seq<Outcome>, cursor: Cursor) {
    && (forall i | 0 <= i < |outcomes| :: outcomes[i].Fetched? && outcomes[i].continueFetch && outcomes[i].next.Some?)
    && (forall i | 0 <= i < |outcomes| :: MovesOn(outcomes, i, cursor))
    && forall i, j | 0 <= i < j < |outcomes| :: (outcomes[i].raw, outcomes[i].next) != (outcomes[j].raw, outcomes[j].next)
  }

  /** Where the run stands after its first n pages. */
  predicate Reached(outcomes: seq<Outcome>, a: Assignment, n: nat, cursor: Cursor, seen: set<(string, Cursor)>)
    requires n <= |outcomes|
  {
    && (if n == 0 then cursor == a.cursor else outcomes[n - 1].Fetched? && outcomes[n - 1].next == Some(cursor))
    && forall p | p in seen :: exists i | 0 <= i < n :: outcomes[i].Fetched? && p.0 == outcomes[i].raw && Some(p.1) == outcomes[i].next
  }

  lemma {:induction false} UndisturbedRunFrom(
    db: Db, w: WorkerId, a: Assignment, cursor: Cursor, maxPages: nat, done: seq<Committed>, seen: set<(string, Cursor)>,
    outcomes: seq<Outcome>, worlds: nat -> seq<Db>, now: nat -> Time, seconds: Time, jitter: Time)
    requires |done| < maxPages <= |outcomes| && (forall n :: |worlds(n)| == 5) && (forall n :: Undisturbed(worlds(n), w))
    requires InHand(db, w, a) && Progressing(outcomes, a.cursor) && Reached(outcomes, a, |done|, cursor, seen)
    ensures |RunFrom(db, w, a, cursor, maxPages, done, seen, outcomes, worlds, now, seconds, jitter).1| == maxPages
    decreases maxPages - |done|
  {
    hide WholeTurn, Undisturbed, InHand;
    var n := |done|;
    var f := outcomes[n];
    assert Undisturbed(worlds(n), w) && |worlds(n)| == 5;
    NewPage(outcomes, a, n, cursor, seen);
    UndisturbedTurn(db, w, a, cursor, f, seen, worlds(n), now(n), seconds, jitter);
    var e := WholeTurn(db, w, a, cursor, f, seen, worlds(n), now(n), seconds, jitter);
    var more := done + [e.committed.value];
    if |more| < maxPages {
      UndisturbedRunFrom(e.db, w, a, e.turn.next, maxPages, more, seen + {(f.raw, f.next.value)},
                         outcomes, worlds, now, seconds, jitter);
    }
  }

  lemma NewPage(outcomes: seq<Outcome>, a: Assignment, n: nat, cursor: Cursor, seen: set<(string, Cursor)>)
    requires n < |outcomes| && Progressing(outcomes, a.cursor) && Reached(outcomes, a, n, cursor, seen)
    ensures !NoProgress(outcomes[n], cursor, seen)
    ensures Reached(outcomes, a, n + 1, outcomes[n].next.value, seen + {(outcomes[n].raw, outcomes[n].next.value)})
  {
    assert MovesOn(outcomes, n, a.cursor);
    var more := seen + {(outcomes[n].raw, outcomes[n].next.value)};
    forall p | p in more
      ensures exists i | 0 <= i < n + 1 :: outcomes[i].Fetched? && p.0 == outcomes[i].raw && Some(p.1) == outcomes[i].next
    {
      if p in seen {
        var i :| 0 <= i < n && outcomes[i].Fetched? && p.0 == outcomes[i].raw && Some(p.1) == outcomes[i].next;
      } else {
        assert outcomes[n].Fetched? && p.0 == outcomes[n].raw && Some(p.1) == outcomes[n].next;
      }
    }
  }

  /** Undisturbed, with pages that keep coming, a run commits as many as it may: it gives nothing up early. */
  lemma UndisturbedRun(db: Db, w: WorkerId, a: Assignment, configuredPages: int, outcomes: seq<Outcome>,
                       worlds: nat -> seq<Db>, now: nat -> Time, seconds: Time, jitter: Time)
    requires 1 <= configuredPages <= |outcomes| && (forall n :: |worlds(n)| == 5) && (forall n :: Undisturbed(worlds(n), w))
    requires InHand(db, w, a) && Progressing(outcomes, a.cursor)
    ensures |RunOf(db, w, a, configuredPages, outcomes, worlds, now, seconds, jitter).1| == configuredPages
  {
    var begun := T.BeginActive(db, a.job, w, a.lane, a.cursor, a.refill, now(0), seconds);
    assert begun.Ok? && InHand(begun.value, w, a);
    UndisturbedRunFrom(begun.value, w, a, a.cursor, configuredPages, [], {}, outcomes, worlds, now, seconds, jitter);
  }
}
