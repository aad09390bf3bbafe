/**
 * Records and gaps over every run: the version table is the compressed observation
 * log, and the gap index of every job with a continuity step is exact.
 */
module RecordInvariants {
  import opened Options
  import opened Tables
  import opened GapIndex
  import opened GapGrid
  import opened Revisions
  import opened Transactions
  import opened Protocol
  import opened LeaseInvariants

  ghost predicate TablesCompressed(db: Db) {
    db.versions == TableOf(db.observations) && db.revisionsDetected == RevisionCount(db.observations)
  }

  /** Rows refer to jobs that exist. */
  ghost predicate Referential(db: Db) {
    && (forall k | k in db.gaps :: k.job in db.jobs)
    && (forall i | 0 <= i < |db.observations| :: db.observations[i].job in db.jobs)
  }

  predicate Continuous(j: Job) {
    j.def.step.Some?
  }

  /** The gap index of one job describes its current event times. */
  ghost predicate GapsExact(db: Db, id: JobId)
    requires id in db.jobs
  {
    Continuous(db.jobs[id]) ==>
      db.jobs[id].def.step.value > 0.0 && Exact(db.gaps, id, db.jobs[id].def.step.value, CurrentTimes(db.versions, id))
  }

  ghost predicate RecordInv(db: Db) {
    TablesCompressed(db) && Referential(db) && forall id | id in db.jobs :: GapsExact(db, id)
  }

  // ----- steps that leave the records alone

  predicate RecordsKept(db: Db, after: Db) {
    && after.versions == db.versions && after.observations == db.observations
    && after.gaps == db.gaps && after.revisionsDetected == db.revisionsDetected
  }

  lemma RecordsKeptStep(s: Sys, m: Moment)
    requires Enabled(s, m) && !m.event.Commit? && !m.event.AskRefill?
    ensures RecordsKept(s.db, DbStep(s, m))
  {
    if m.event.Claim? {
      ClaimHasEffect(s.db, m.event.w, m.now, m.event.seconds, m.event.allowed, m.event.a);
    }
  }

  /** Jobs keep their definitions; a new job has a positive step or none, and no rows yet. */
  ghost predicate DefinitionsKept(db: Db, after: Db) {
    && (forall id | id in db.jobs :: id in after.jobs && after.jobs[id].def == db.jobs[id].def)
    && (forall id | id in after.jobs && id !in db.jobs && Continuous(after.jobs[id]) :: after.jobs[id].def.step.value > 0.0)
  }

  lemma DefinitionsKeptStep(s: Sys, m: Moment)
    requires Enabled(s, m)
    ensures DefinitionsKept(s.db, DbStep(s, m))
  {
    if m.event.Claim? {
      ClaimHasEffect(s.db, m.event.w, m.now, m.event.seconds, m.event.allowed, m.event.a);
    } else {
      NoClaimStep(s, m);
    }
  }

  lemma NoRowsNoTimes(db: Db, id: JobId)
    requires TablesCompressed(db) && Referential(db) && id !in db.jobs
    ensures CurrentTimes(db.versions, id) == {}
  {
    forall t: Time ensures t !in CurrentTimes(db.versions, id) {
      CurrentTimesAre(db.observations, id, t);
      if who :| CurrentTime(db.observations, id, who) == Some(t) {
        SeenOnlyOwn(db.observations, id, who);
      }
    }
  }

  lemma {:induction false} SeenOnlyOwn(log: seq<Observation>, job: JobId, id: Identity)
    requires forall i | 0 <= i < |log| :: log[i].job != job
    ensures Seen(log, job, id) == []
  {
    if log != [] {
      SeenOnlyOwn(log[..|log| - 1], job, id);
    }
  }

  lemma QuietKeepsRecords(db: Db, after: Db)
    requires RecordInv(db) && RecordsKept(db, after) && DefinitionsKept(db, after)
    ensures RecordInv(after)
  {
    forall id | id in after.jobs ensures GapsExact(after, id) {
      if id !in db.jobs {
        NoRowsNoTimes(db, id);
      } else {
        assert GapsExact(db, id);
      }
    }
  }

  // ----- queueing a refill only relabels an unresolved gap

  lemma RelabelKeepsExact(gaps: GapTable, gap: GapKey, id: JobId, step: Time, series: set<Time>)
    requires Unresolved(gaps, gap) && step > 0.0 && Exact(gaps, id, step, series)
    ensures Exact(gaps[gap := gaps[gap].(status := BackfillQueued)], id, step, series)
  {
    var after := gaps[gap := gaps[gap].(status := BackfillQueued)];
    assert forall k: GapKey :: Unresolved(after, k) <==> Unresolved(gaps, k);
  }

  lemma RefillKeepsRecords(db: Db, id: JobId, gap: GapKey, at: Cursor, r: RefillId, now: Time)
    requires RecordInv(db)
    ensures RecordInv(OrKeep(QueueRefill(db, id, gap, at, r, now), db))
  {
    var after := OrKeep(QueueRefill(db, id, gap, at, r, now), db);
    if after.gaps == db.gaps {
      QuietKeepsRecords(db, after);
    } else {
      forall other | other in after.jobs ensures GapsExact(after, other) {
        assert GapsExact(db, other);
        if Continuous(db.jobs[other]) {
          RelabelKeepsExact(db.gaps, gap, other, db.jobs[other].def.step.value, CurrentTimes(db.versions, other));
        }
      }
    }
  }

  // ----- a committed page

  lemma CommitKeepsRecords(db: Db, c: PageCommit, now: Time)
    requires RecordInv(db) && MayCommit(db, c)
    ensures RecordInv(CommitPage(db, c, now).value)
  {
    var after := CommitPage(db, c, now).value;
    CommitRow(db, c, now);
    var added := PageObservations(c.page, c.job, c.entries);
    assert after.observations == db.observations + added;
    forall id | id in after.jobs ensures GapsExact(after, id) {
      assert GapsExact(db, id);
      CommitKeepsGaps(db, c, now, id);
    }
    CommitStaysReferential(db, c, now);
  }

  lemma CommitStaysReferential(db: Db, c: PageCommit, now: Time)
    requires Referential(db) && MayCommit(db, c)
    ensures Referential(CommitPage(db, c, now).value)
  {
    var after := CommitPage(db, c, now).value;
    CommitRow(db, c, now);
    var added := PageObservations(c.page, c.job, c.entries);
    forall k | k in after.gaps ensures k.job in after.jobs {
      if k.job != c.job {
        OtherJobsKept(db.gaps, c.job, db.jobs[c.job].def.step, CurrentTimes(after.versions, c.job),
                      AffectedTimes(db.observations, added), k);
      }
    }
  }

  lemma CommitKeepsGaps(db: Db, c: PageCommit, now: Time, id: JobId)
    requires RecordInv(db) && MayCommit(db, c) && id in db.jobs
    ensures var after := CommitPage(db, c, now).value;
            id in after.jobs && after.jobs[id].def == db.jobs[id].def && GapsExact(after, id)
  {
    var after := CommitPage(db, c, now).value;
    CommitRow(db, c, now);
    var log, added := db.observations, PageObservations(c.page, c.job, c.entries);
    var affected, times := AffectedTimes(log, added), CurrentTimes(after.versions, c.job);
    assert GapsExact(db, id);
    if Continuous(db.jobs[id]) {
      var step := db.jobs[id].def.step.value;
      if id == c.job {
        PageTimesAreCovered(log, added, id);
        IncrementalIsExact(db.gaps, id, step, CurrentTimes(db.versions, id), times, affected);
      } else {
        OtherTimesKept(log, added, id);
        OtherGapsKept(db.gaps, after.gaps, c.job, db.jobs[c.job].def.step, times, affected, id, step, CurrentTimes(db.versions, id));
      }
    }
  }

  lemma OtherGapsKept(gaps: GapTable, after: GapTable, job: JobId, jobStep: Option<Time>, times: set<Time>,
                      affected: set<Time>, id: JobId, step: Time, series: set<Time>)
    requires after == Recomputed(gaps, job, jobStep, times, affected)
    requires id != job && step > 0.0 && Exact(gaps, id, step, series)
    ensures Exact(after, id, step, series)
  {
    forall k: GapKey | k.job == id ensures (k in after <==> k in gaps) && (k in gaps ==> after[k] == gaps[k]) {
      OtherJobsKept(gaps, job, jobStep, times, affected, k);
    }
    forall k: GapKey | k.job == id ensures Unresolved(after, k) <==> Unresolved(gaps, k) {
      OtherJobsKept(gaps, job, jobStep, times, affected, k);
    }
  }

  // ----- every run

  lemma RecordInvStep(s: Sys, m: Moment)
    requires Enabled(s, m) && RecordInv(s.db)
    ensures RecordInv(DbStep(s, m))
  {
    match m.event
    case Commit(w, _, _, _, _, _) =>
      var c := CommitOf(w, s.workers[w], m.event);
      if MayCommit(s.db, c) {
        CommitKeepsRecords(s.db, c, m.now);
      }
    case AskRefill(id, gap, at, r) => RefillKeepsRecords(s.db, id, gap, at, r, m.now);
    case _ =>
      RecordsKeptStep(s, m);
      DefinitionsKeptStep(s, m);
      QuietKeepsRecords(s.db, DbStep(s, m));
  }

  lemma {:induction false} RecordsHoldOnEveryRun(s: Sys, trace: seq<Moment>)
    requires RecordInv(s.db) && Possible(s, trace)
    ensures RecordInv(After(s, trace).db)
    decreases |trace|
  {
    if trace != [] {
      RecordInvStep(s, trace[0]);
      RecordsHoldOnEveryRun(Step(s, trace[0]), trace[1..]);
    }
  }

  /** In every reachable state the unresolved gaps of a job are exactly its wide neighbouring pairs. */
  lemma GapIndexIsExactOnEveryRun(trace: seq<Moment>, id: JobId, k: GapKey)
    requires Possible(INITIAL, trace)
    requires id in After(INITIAL, trace).db.jobs && Continuous(After(INITIAL, trace).db.jobs[id]) && k.job == id
    ensures var db := After(INITIAL, trace).db;
            Unresolved(db.gaps, k) <==>
              && Adjacent(CurrentTimes(db.versions, id), k.previous, k.following)
              && Wide(k.previous, k.following, db.jobs[id].def.step.value)
  {
    InitialRecords();
    RecordsHoldOnEveryRun(INITIAL, trace);
    assert GapsExact(After(INITIAL, trace).db, id);
  }

  lemma InitialRecords()
    ensures RecordInv(INITIAL.db)
  {
    assert TableKeys([]) == {};
    assert TableOf([]) == map[];
  }

  /** In every reachable state the version rows are the collapsed log, and are counted by the metric. */
  lemma VersionsAreTheLogOnEveryRun(trace: seq<Moment>, job: JobId, id: Identity)
    requires Possible(INITIAL, trace)
    ensures var db := After(INITIAL, trace).db;
            var obs := Seen(db.observations, job, id);
            && Revisions.Holds(db.versions, job, id, ChainOf(db.observations, job, id))
            && RowsAreRuns(obs, Runs(obs), ChainOf(db.observations, job, id))
            && RowsSummarize(obs, Runs(obs), ChainOf(db.observations, job, id))
            && |db.versions| == |Heads(db.observations)| + db.revisionsDetected
  {
    InitialRecords();
    RecordsHoldOnEveryRun(INITIAL, trace);
    var log := After(INITIAL, trace).db.observations;
    TableHolds(log, job, id);
    ChainIsTheCollapsedLog(log, job, id);
    RowsAreCounted(log);
  }

  /** A job's recorded times and gaps fill the grid they lie on. */
  ghost predicate GridConserved(db: Db, id: JobId)
    requires id in db.jobs && Continuous(db.jobs[id])
  {
    var times, step, open := CurrentTimes(db.versions, id), db.jobs[id].def.step.value, UnresolvedKeys(db.gaps, id);
    && step > 0.0 && times != {} && open <= db.gaps.Keys
    && (|times| + Total(open, db.gaps)) as real == (Greatest(times) - Least(times)) / step + 1.0
  }

  lemma ExactMeansConserved(db: Db, id: JobId, base: Time)
    requires id in db.jobs && Continuous(db.jobs[id]) && GapsExact(db, id)
    requires CurrentTimes(db.versions, id) != {} && Gridded(CurrentTimes(db.versions, id), base, db.jobs[id].def.step.value)
    ensures GridConserved(db, id)
  {
    IndexConservesTheGrid(db.gaps, id, db.jobs[id].def.step.value, CurrentTimes(db.versions, id), base);
  }

  /** In every reachable state a gridded series and its recorded gaps fill the grid. */
  lemma GridIsConservedOnEveryRun(trace: seq<Moment>, id: JobId, base: Time)
    requires Possible(INITIAL, trace)
    requires id in After(INITIAL, trace).db.jobs && Continuous(After(INITIAL, trace).db.jobs[id])
    requires CurrentTimes(After(INITIAL, trace).db.versions, id) != {}
    requires Gridded(CurrentTimes(After(INITIAL, trace).db.versions, id), base, After(INITIAL, trace).db.jobs[id].def.step.value)
    ensures GridConserved(After(INITIAL, trace).db, id)
  {
    InitialRecords();
    RecordsHoldOnEveryRun(INITIAL, trace);
    ExactMeansConserved(After(INITIAL, trace).db, id, base);
  }
}
