/**
 * Cursor safety over every run: the main-lane pages on record cover everything
 * from where a job began up to its stored cursor, although a run may restart
 * below the cursor and several workers may believe they are at work.
 */
module CursorCoverage {
  import opened Options
  import opened Tables
  import opened Transactions
  import opened Protocol
  import opened LeaseInvariants

  /** Where collection begins. */
  function Origin(j: Job): Cursor {
    if j.def.initialCursor.Some? then j.def.initialCursor.value else j.def.providerStart
  }

  /** A main page fetched at c with next cursor n covers [c, n). */
  predicate CoveredBy(p: Page, id: JobId, x: Cursor) {
    p.job == id && p.lane == MainLane && p.next.Some? && p.request <= x < p.next.value
  }

  predicate OnRecord(pages: seq<Page>, id: JobId, x: Cursor) {
    exists i | 0 <= i < |pages| :: CoveredBy(pages[i], id, x)
  }

  ghost predicate Covered(pages: seq<Page>, id: JobId, low: Cursor, high: Cursor) {
    forall x: int | low <= x < high :: OnRecord(pages, id, x)
  }

  ghost predicate AllCovered(db: Db) {
    forall id | id in db.jobs :: Covered(db.pages, id, Origin(db.jobs[id]), Checkpoint(db.jobs[id]))
  }

  /** The next cursor of the last main page that had one, or the cursor the job was created with. */
  function LatestNext(pages: seq<Page>, id: JobId, initial: Option<Cursor>): Option<Cursor> {
    if pages == [] then initial
    else
      var p := pages[|pages| - 1];
      if p.job == id && p.lane == MainLane && p.next.Some? then p.next
      else LatestNext(pages[..|pages| - 1], id, initial)
  }

  ghost predicate CursorsAreLatest(db: Db) {
    forall id | id in db.jobs :: db.jobs[id].cursor == LatestNext(db.pages, id, db.jobs[id].def.initialCursor)
  }

  /** Whoever may commit a main page of a job asks for it at or below the stored cursor. */
  ghost predicate RequestsBelow(s: Sys) {
    forall id, w | Owns(s.db, id, w) && IsBusy(s, w) && s.workers[w].lane == MainLane ::
      s.workers[w].cursor <= Checkpoint(s.db.jobs[id])
  }

  ghost predicate CursorInv(s: Sys) {
    AllCovered(s.db) && CursorsAreLatest(s.db) && RequestsBelow(s)
    && forall i | 0 <= i < |s.db.pages| :: s.db.pages[i].job in s.db.jobs
  }

  // ----- a page extends the covered range

  lemma CoverExtends(pages: seq<Page>, p: Page, id: JobId, low: Cursor, high: Cursor)
    requires Covered(pages, id, low, high)
    ensures Covered(pages + [p], id, low, high)
    ensures p.job == id && p.lane == MainLane && p.next.Some? && p.request <= high ==>
              Covered(pages + [p], id, low, p.next.value)
  {
    var all := pages + [p];
    forall x: int | low <= x < high ensures OnRecord(all, id, x) {
      assert OnRecord(pages, id, x);
      var i :| 0 <= i < |pages| && CoveredBy(pages[i], id, x);
      assert all[i] == pages[i];
    }
    if p.job == id && p.lane == MainLane && p.next.Some? && p.request <= high {
      forall x: int | low <= x < p.next.value ensures OnRecord(all, id, x) {
        if x >= p.request {
          assert CoveredBy(all[|pages|], id, x);
        }
      }
    }
  }

  lemma LatestNextAppend(pages: seq<Page>, p: Page, id: JobId, initial: Option<Cursor>)
    ensures LatestNext(pages + [p], id, initial) ==
            (if p.job == id && p.lane == MainLane && p.next.Some? then p.next else LatestNext(pages, id, initial))
  {
    assert (pages + [p])[..|pages|] == pages;
  }

  lemma {:induction false} LatestNextOfNone(pages: seq<Page>, id: JobId, initial: Option<Cursor>)
    requires forall i | 0 <= i < |pages| :: pages[i].job != id
    ensures LatestNext(pages, id, initial) == initial
  {
    if pages != [] {
      LatestNextOfNone(pages[..|pages| - 1], id, initial);
    }
  }

  // ----- the steps

  /** Steps that commit nothing and claim nothing. */
  lemma QuietKeepsCursors(s: Sys, after: Sys, now: Time)
    requires CursorInv(s) && NoClaim(s.db, after.db, now) && CursorsKept(s.db, after.db) && WorkersStay(s, after)
    requires after.db.pages == s.db.pages
    requires forall w | w in s.workers && after.workers[w].Busy? :: after.workers[w] == s.workers[w]
    requires OwnersBacked(s)
    requires forall id | id in after.db.jobs && id !in s.db.jobs ::
               after.db.jobs[id].cursor == after.db.jobs[id].def.initialCursor
    ensures CursorInv(after)
  {
    forall id | id in after.db.jobs
      ensures after.db.jobs[id].cursor == LatestNext(after.db.pages, id, after.db.jobs[id].def.initialCursor)
    {
      if id !in s.db.jobs {
        LatestNextOfNone(after.db.pages, id, after.db.jobs[id].def.initialCursor);
      }
    }
    forall id, w | Owns(after.db, id, w) && IsBusy(after, w) && after.workers[w].lane == MainLane
      ensures after.workers[w].cursor <= Checkpoint(after.db.jobs[id])
    {
      assert Owns(s.db, id, w) && Backed(s, id, w);
    }
  }

  lemma ClaimKeepsCursors(s: Sys, m: Moment)
    requires Enabled(s, m) && m.event.Claim? && CursorInv(s) && OwnersBacked(s)
    ensures CursorInv(Step(s, m))
  {
    ClaimHasEffect(s.db, m.event.w, m.now, m.event.seconds, m.event.allowed, m.event.a);
    var t := Step(s, m);
    assert t.db.pages == s.db.pages;
    forall id | id in t.db.jobs
      ensures t.db.jobs[id].cursor == s.db.jobs[id].cursor && t.db.jobs[id].def == s.db.jobs[id].def
    {
      assert m.event.a.pick == Some(id) || m.event.a.pick != Some(id);
    }
    forall id, w | Owns(t.db, id, w) && IsBusy(t, w) && t.workers[w].lane == MainLane
      ensures t.workers[w].cursor <= Checkpoint(t.db.jobs[id])
    {
      if m.event.a.pick != Some(id) {
        assert t.db.jobs[id] == s.db.jobs[id];
        assert Owns(s.db, id, w) && Backed(s, id, w);
      }
    }
  }

  /** What a commit does, as far as cursors go. */
  lemma CommitKeepsCursors(s: Sys, after: Sys, c: PageCommit, now: Time)
    requires CursorInv(s) && OwnersBacked(s) && MayCommit(s.db, c) && IsBusy(s, c.owner)
    requires s.workers[c.owner].lane == c.lane && s.workers[c.owner].cursor == c.request
    requires after.db.jobs == s.db.jobs[c.job := JobAfter(s.db.jobs[c.job], s.db.refills, c, now)] && after.db.pages == s.db.pages + [PageOf(c)]
    requires after.workers == s.workers[c.owner :=
               if StatusAfter(s.db.jobs[c.job], s.db.refills, c) == Leased then s.workers[c.owner].(cursor := c.next.value) else Idle]
    ensures CursorInv(after)
  {
    assert Backed(s, c.job, c.owner);
    forall id | id in after.db.jobs
      ensures Covered(after.db.pages, id, Origin(after.db.jobs[id]), Checkpoint(after.db.jobs[id]))
      ensures after.db.jobs[id].cursor == LatestNext(after.db.pages, id, after.db.jobs[id].def.initialCursor)
    {
      CoverExtends(s.db.pages, PageOf(c), id, Origin(s.db.jobs[id]), Checkpoint(s.db.jobs[id]));
      LatestNextAppend(s.db.pages, PageOf(c), id, s.db.jobs[id].def.initialCursor);
    }
    forall id, w | Owns(after.db, id, w) && IsBusy(after, w) && after.workers[w].lane == MainLane
      ensures after.workers[w].cursor <= Checkpoint(after.db.jobs[id])
    {
      assert Owns(s.db, id, w) && Backed(s, id, w);
    }
  }

  lemma CursorInvStep(s: Sys, m: Moment)
    requires Enabled(s, m) && CursorInv(s) && OwnersBacked(s)
    ensures CursorInv(Step(s, m))
  {
    if m.event.Claim? {
      ClaimKeepsCursors(s, m);
    } else if m.event.Commit? {
      CommitStepKeepsCursors(s, m);
    } else {
      PagesStep(s, m);
      NoClaimStep(s, m);
      WorkersStayStep(s, m);
      QuietKeepsCursors(s, Step(s, m), m.now);
    }
  }

  lemma CommitStepKeepsCursors(s: Sys, m: Moment)
    requires Enabled(s, m) && m.event.Commit? && CursorInv(s) && OwnersBacked(s)
    ensures CursorInv(Step(s, m))
  {
    var c := CommitOf(m.event.w, s.workers[m.event.w], m.event);
    if MayCommit(s.db, c) {
      CommitRow(s.db, c, m.now);
      CommitKeepsCursors(s, Step(s, m), c, m.now);
    }
  }

  /**
   * Over every interleaving of workers, API calls, recoveries and crashes: the
   * committed main pages cover [origin, cursor) of every job, and the cursor is the
   * next cursor of its last main page that had one.
   */
  lemma {:induction false} CursorsHoldOnEveryRun(s: Sys, trace: seq<Moment>)
    requires CursorInv(s) && LeaseInv(s) && Possible(s, trace)
    ensures AllCovered(After(s, trace).db) && CursorsAreLatest(After(s, trace).db)
    decreases |trace|
  {
    if trace != [] {
      CursorInvStep(s, trace[0]);
      LeaseInvStep(s, trace[0]);
      CursorsHoldOnEveryRun(Step(s, trace[0]), trace[1..]);
    }
  }
}
