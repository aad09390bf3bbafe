/**
 * MiningWorker._process_job (mining/worker.py): the page loop of one claim, run
 * while the rest of the system keeps changing the store between its transactions.
 */
module MiningWorkers {
  import opened Options
  import opened Tables
  import opened Revisions
  import T = Transactions
  import P = Protocol
  import L = LeaseInvariants
  import R = RecordInvariants
  import opened MiningStores
  import opened WorkerTurns

  /** Every event of the protocol that is not `w`'s own is tolerated. */
  lemma OthersAreTolerated(s: P.Sys, m: P.Moment, w: WorkerId)
    requires P.Enabled(s, m) && R.RecordInv(s.db)
    requires m.event.Claim? || m.event.Commit? ==> m.event.w != w
    ensures Tolerated(s.db, P.DbStep(s, m), w)
  {
    R.RecordInvStep(s, m);
    L.PagesStep(s, m);
    if m.event.Claim? {
      P.ClaimHasEffect(s.db, m.event.w, m.now, m.event.seconds, m.event.allowed, m.event.a);
    } else {
      L.NoClaimStep(s, m);
    }
  }

  /** The rest of the system moves the store to `world`, if it may. */
  method Interfere(store: MiningStore, w: WorkerId, world: Db)
    requires store.Valid()
    modifies store
    ensures store.Valid() && store.Tables() == Met(old(store.Tables()), world, w)
    ensures Tolerated(old(store.Tables()), store.Tables(), w)
  {
    if Tolerated(store.Tables(), world, w) {
      store.jobs, store.pages, store.versions, store.observations := world.jobs, world.pages, world.versions, world.observations;
      store.gaps, store.refills, store.revisionsDetected := world.gaps, world.refills, world.revisionsDetected;
    }
  }

  predicate MadeProgress(c: Committed) {
    c.page.next != Some(c.page.request)
  }

  /** Each page starts where the one before it ended. */
  predicate Chained(done: seq<Committed>, first: Cursor) {
    && (done != [] ==> done[0].page.request == first)
    && forall i | 0 < i < |done| :: done[i - 1].page.next == Some(done[i].page.request)
  }

  /** No page and next-cursor pair occurs twice, except a last page without next cursor. */
  predicate NeverRepeats(done: seq<Committed>) {
    forall i, j | 0 <= i < j < |done| && done[j].page.next.Some? ::
      !(done[i].raw == done[j].raw && done[i].page.next == done[j].page.next)
  }

  predicate AllPagesFrom(done: seq<Committed>, w: WorkerId, a: Assignment) {
    forall i | 0 <= i < |done| ::
      done[i].page.owner == w && done[i].page.job == a.job && done[i].page.claim == a.claim && MadeProgress(done[i])
  }

  /** The pages one worker committed, in commit order. */
  function PagesBy(pages: seq<Page>, w: WorkerId): seq<Page> {
    if pages == [] then []
    else
      var p := pages[|pages| - 1];
      PagesBy(pages[..|pages| - 1], w) + (if p.owner == w then [p] else [])
  }

  function PagesOf(done: seq<Committed>): (pages: seq<Page>)
    ensures |pages| == |done|
  {
    seq(|done|, i requires 0 <= i < |done| => done[i].page)
  }

  lemma PagesByAppend(pages: seq<Page>, p: Page, w: WorkerId)
    ensures PagesBy(pages + [p], w) == PagesBy(pages, w) + (if p.owner == w then [p] else [])
  {
    assert (pages + [p])[..|pages|] == pages;
  }

  lemma {:induction false} OthersAddNone(before: seq<Page>, after: seq<Page>, w: WorkerId)
    requires before <= after && forall i | |before| <= i < |after| :: after[i].owner != w
    ensures PagesBy(after, w) == PagesBy(before, w)
  {
    if before != after {
      OthersAddNone(before, after[..|after| - 1], w);
    }
  }

  /** What the pages of one run promise. */
  predicate WellRun(done: seq<Committed>, w: WorkerId, a: Assignment) {
    AllPagesFrom(done, w, a) && Chained(done, a.cursor) && NeverRepeats(done)
  }

  /** The cursor the next page is requested at. */
  predicate Expects(done: seq<Committed>, a: Assignment, cursor: Cursor) {
    if done == [] then cursor == a.cursor else done[|done| - 1].page.next == Some(cursor)
  }

  /** seen_pages holds the fingerprint of every page that had a next cursor. */
  predicate Remembers(done: seq<Committed>, seen: set<(string, Cursor)>) {
    forall i | 0 <= i < |done| :: done[i].page.next.Some? ==> (done[i].raw, done[i].page.next.value) in seen
  }

  lemma OneMorePage(done: seq<Committed>, c: Committed, w: WorkerId, a: Assignment, cursor: Cursor, seen: set<(string, Cursor)>)
    requires WellRun(done, w, a) && Expects(done, a, cursor) && Remembers(done, seen)
    requires c.page.owner == w && c.page.job == a.job && c.page.claim == a.claim && MadeProgress(c)
    requires c.page.request == cursor && (c.page.next.Some? ==> (c.raw, c.page.next.value) !in seen)
    ensures WellRun(done + [c], w, a)
    ensures c.page.next.Some? ==>
              && Remembers(done + [c], seen + {(c.raw, c.page.next.value)})
              && Expects(done + [c], a, c.page.next.value)
    ensures PagesOf(done + [c]) == PagesOf(done) + [c.page]
  {
  }

  lemma NoPageYet(w: WorkerId, a: Assignment)
    ensures WellRun([], w, a) && Expects([], a, a.cursor) && Remembers([], {}) && PagesOf([]) == []
  {
  }

  // ----- the worker's own transactions, as far as the loop depends on them

  method Retry(store: MiningStore, job: JobId, w: WorkerId, retryAfter: Option<Time>, jitter: Time, now: Time)
    requires store.Valid()
    modifies store
    ensures store.Valid() && store.pages == old(store.pages) && !T.Owns(store.Tables(), job, w)
    ensures store.Tables() == T.RetryJob(old(store.Tables()), job, w, retryAfter, jitter, now)
  {
    store.RetryJob(job, w, retryAfter, jitter, now);
  }

  method Block(store: MiningStore, job: JobId, w: WorkerId)
    requires store.Valid()
    modifies store
    ensures store.Valid() && store.pages == old(store.pages) && !T.Owns(store.Tables(), job, w)
    ensures store.Tables() == T.BlockJob(old(store.Tables()), job, w)
  {
    store.BlockJob(job, w);
  }

  method Release(store: MiningStore, job: JobId, w: WorkerId, now: Time)
    requires store.Valid()
    modifies store
    ensures store.Valid() && store.pages == old(store.pages) && !T.Owns(store.Tables(), job, w)
    ensures store.Tables() == T.ReleaseJob(old(store.Tables()), job, w, now)
  {
    store.ReleaseJob(job, w, now);
  }

  method Advance(store: MiningStore, job: JobId, w: WorkerId, status: Status, now: Time, seconds: Time)
    returns (held: bool)
    requires store.Valid()
    modifies store
    ensures store.Valid() && store.pages == old(store.pages)
    ensures held == T.Transition(old(store.Tables()), job, w, status, now, seconds).Ok?
    ensures store.Tables() == P.OrKeep(T.Transition(old(store.Tables()), job, w, status, now, seconds), old(store.Tables()))
  {
    held := store.Transition(job, w, status, now, seconds);
  }

  method Begin(store: MiningStore, a: Assignment, w: WorkerId, now: Time, seconds: Time) returns (held: bool)
    requires store.Valid()
    modifies store
    ensures store.Valid() && store.pages == old(store.pages)
    ensures held == T.BeginActive(old(store.Tables()), a.job, w, a.lane, a.cursor, a.refill, now, seconds).Ok?
    ensures store.Tables() == P.OrKeep(T.BeginActive(old(store.Tables()), a.job, w, a.lane, a.cursor, a.refill, now, seconds),
                                       old(store.Tables()))
  {
    held := store.BeginActive(a.job, w, a.lane, a.cursor, a.refill, now, seconds);
  }

  method Commit(store: MiningStore, c: T.PageCommit, now: Time) returns (status: Option<Status>)
    requires store.Valid()
    modifies store
    ensures store.Valid()
    ensures PagesBy(store.pages, c.owner) == old(PagesBy(store.pages, c.owner)) + if status.Some? then [T.PageOf(c)] else []
    ensures status.Some? && status != Some(Leased) ==> !T.Owns(store.Tables(), c.job, c.owner)
    ensures status == Some(Leased) ==> c.next.Some?
    ensures status.Some? <==> T.CommitPage(old(store.Tables()), c, now).Ok?
    ensures status.Some? ==> c.job in store.jobs && status == Some(store.jobs[c.job].status)
    ensures store.Tables() == P.OrKeep(T.CommitPage(old(store.Tables()), c, now), old(store.Tables()))
  {
    hide T.CommitPage, T.StatusAfter, T.MayCommit, PagesBy;
    status := store.CommitPage(c, now);
    PagesByAppend(old(store.pages), T.PageOf(c), c.owner);
    assert old(store.pages) + [] == old(store.pages);
  }

  /** Between two transactions, as far as the loop depends on it. */
  method Wait(store: MiningStore, w: WorkerId, world: Db)
    requires store.Valid()
    modifies store
    ensures store.Valid() && PagesBy(store.pages, w) == old(PagesBy(store.pages, w))
    ensures store.Tables() == Met(old(store.Tables()), world, w)
  {
    Interfere(store, w, world);
    OthersAddNone(old(store.pages), store.pages, w);
  }

  /** transition to fetching, fetch, transition to committing, commit; every failure gives the lease back. */
  method FetchAndCommit(store: MiningStore, w: WorkerId, a: Assignment, cursor: Cursor, f: Outcome,
                        seen: set<(string, Cursor)>, worlds: seq<Db>, now: Time, seconds: Time, jitter: Time)
    returns (turn: Turn, committed: Option<Committed>)
    requires store.Valid() && |worlds| == 3 && !f.StopRequested? && !f.RateWaitStopped?
    modifies store
    ensures store.Valid()
    ensures Ending(store.Tables(), turn, committed)
            == FetchTurn(old(store.Tables()), w, a, cursor, f, seen, worlds, now, seconds, jitter)
    ensures PagesBy(store.pages, w) == old(PagesBy(store.pages, w)) + if committed.Some? then [committed.value.page] else []
    ensures turn.Finished? ==> !T.Owns(store.Tables(), a.job, w)
    ensures turn.Continue? ==> committed.Some? && committed.value.page.next == Some(turn.next)
    ensures committed.Some? ==>
              && f.Fetched? && committed.value == Committed(T.PageOf(CommitOf(w, a, cursor, f, seconds)), f.raw)
              && MadeProgress(committed.value)
              && (f.next.Some? ==> (f.raw, f.next.value) !in seen)
  {
    hide T.CommitPage, T.RetryJob, T.BlockJob, T.Transition, T.StatusAfter, Met, PagesBy;
    committed := None;
    turn := Finished;
    var held := Advance(store, a.job, w, Fetching, now, seconds);
    Wait(store, w, worlds[0]);
    if !held {
      Retry(store, a.job, w, None, jitter, now);
      return;
    }
    match f {
      case ProviderBlocked =>
        Block(store, a.job, w);
      case ProviderInvalid =>
        Block(store, a.job, w);
      case ProviderRetryable(retryAfter) =>
        Retry(store, a.job, w, retryAfter, jitter, now);
      case ProviderFailed =>
        Retry(store, a.job, w, None, jitter, now);
      case Fetched(page, raw, next, continueFetch, entries) =>
        if next == Some(cursor) || (next.Some? && (raw, next.value) in seen) {
          Block(store, a.job, w);
          return;
        }
        held := Advance(store, a.job, w, Committing, now, seconds);
        Wait(store, w, worlds[1]);
        if !held {
          Retry(store, a.job, w, None, jitter, now);
          return;
        }
        var c := CommitOf(w, a, cursor, f, seconds);
        var status := Commit(store, c, now);
        if status.None? {
          Wait(store, w, worlds[2]);
          Retry(store, a.job, w, None, jitter, now);
          return;
        }
        committed := Some(Committed(T.PageOf(c), raw));
        if status == Some(Leased) && next.Some? {
          turn := Continue(next.value);
        }
    }
  }

  /** One turn: stop and pause requests release the job, otherwise a page is fetched and committed. */
  method TakeTurn(store: MiningStore, w: WorkerId, a: Assignment, cursor: Cursor, f: Outcome,
                  seen: set<(string, Cursor)>, worlds: seq<Db>, now: Time, seconds: Time, jitter: Time)
    returns (turn: Turn, committed: Option<Committed>)
    requires store.Valid() && |worlds| == 5
    modifies store
    ensures store.Valid()
    ensures Ending(store.Tables(), turn, committed)
            == WholeTurn(old(store.Tables()), w, a, cursor, f, seen, worlds, now, seconds, jitter)
    ensures PagesBy(store.pages, w) == old(PagesBy(store.pages, w)) + if committed.Some? then [committed.value.page] else []
    ensures turn.Finished? ==> !T.Owns(store.Tables(), a.job, w)
    ensures turn.Continue? ==> committed.Some? && committed.value.page.next == Some(turn.next)
    ensures committed.Some? ==>
              && f.Fetched? && committed.value == Committed(T.PageOf(CommitOf(w, a, cursor, f, seconds)), f.raw)
              && MadeProgress(committed.value)
              && (f.next.Some? ==> (f.raw, f.next.value) !in seen)
  {
    hide T.ReleaseJob, Met, PagesBy, FetchTurn;
    Wait(store, w, worlds[0]);
    var pauseRequested := a.job in store.jobs && store.jobs[a.job].hold.owner == Some(w) && store.jobs[a.job].pauseRequested;
    if f.StopRequested? || f.RateWaitStopped? || pauseRequested {
      Wait(store, w, worlds[1]);
      Release(store, a.job, w, now);
      turn, committed := Finished, None;
    } else {
      turn, committed := FetchAndCommit(store, w, a, cursor, f, seen, worlds[2..], now, seconds, jitter);
    }
  }

  /**
   * The page loop. Whatever the provider returns and whatever others do in between:
   * the pages this worker added to the store are exactly `done`, at most maxPages of
   * them, each makes progress and none repeats, and on every way out the worker no
   * longer owns the job.
   */
  method ProcessJob(store: MiningStore, w: WorkerId, a: Assignment, configuredPages: int, outcomes: seq<Outcome>,
                    worlds: nat -> seq<Db>, now: nat -> Time, seconds: Time, jitter: Time)
    returns (done: seq<Committed>)
    requires store.Valid() && forall n :: |worlds(n)| == 5
    modifies store
    ensures store.Valid() && !T.Owns(store.Tables(), a.job, w)
    ensures (store.Tables(), done) == RunOf(old(store.Tables()), w, a, configuredPages, outcomes, worlds, now, seconds, jitter)
    ensures |done| <= if configuredPages < 1 then 1 else configuredPages
    ensures PagesBy(store.pages, w) == old(PagesBy(store.pages, w)) + PagesOf(done) && WellRun(done, w, a)
  {
    hide WellRun, Expects, Remembers, PagesOf, PagesBy, WholeTurn, Met, T.BeginActive, T.RetryJob, T.ReleaseJob;
    ghost var run := RunOf(store.Tables(), w, a, configuredPages, outcomes, worlds, now, seconds, jitter);
    NoPageYet(w, a);
    done := [];
    var begun := Begin(store, a, w, now(0), seconds);
    if !begun {
      Wait(store, w, worlds(0)[0]);
      Retry(store, a.job, w, None, jitter, now(0));
      return;
    }
    var seen: set<(string, Cursor)> := {};
    var maxPages := if configuredPages < 1 then 1 else configuredPages;
    var cursor := a.cursor;
    while true
      invariant store.Valid() && |done| < maxPages
      invariant PagesBy(store.pages, w) == old(PagesBy(store.pages, w)) + PagesOf(done)
      invariant WellRun(done, w, a) && Expects(done, a, cursor) && Remembers(done, seen)
      invariant run == RunFrom(store.Tables(), w, a, cursor, maxPages, done, seen, outcomes, worlds, now, seconds, jitter)
      decreases maxPages - |done|
    {
      var n := |done|;
      var f := if n < |outcomes| then outcomes[n] else StopRequested;
      var turn, committed := TakeTurn(store, w, a, cursor, f, seen, worlds(n), now(n), seconds, jitter);
      if committed.Some? {
        OneMorePage(done, committed.value, w, a, cursor, seen);
        done := done + [committed.value];
      }
      if turn.Finished? {
        return;
      }
      if |done| >= maxPages {
        Wait(store, w, worlds(n + 1)[0]);
        Release(store, a.job, w, now(n));
        return;
      }
      seen := seen + {(committed.value.raw, turn.next)};
      cursor := turn.next;
    }
  }
}
