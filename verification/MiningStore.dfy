/**
 * MiningStore (mining/store.py): the tables are fields, and every method is one
 * transaction, proved against the function of the same name in Transactions.
 */
module MiningStores {
  import opened Options
  import opened Tables
  import opened Collections
  import opened GapIndex
  import opened Revisions
  import T = Transactions
  import opened Protocol

  // ----- what the SELECT statements find

  lemma {:induction false} HasFirstDue(jobs: map<JobId, Job>, among: set<JobId>)
    requires among != {} && among <= jobs.Keys
    ensures exists id :: id in among && forall other | other in among :: T.NoLater(jobs[id], jobs[other])
  {
    var x :| x in among;
    if among != {x} {
      HasFirstDue(jobs, among - {x});
      var y :| y in among - {x} && forall other | other in among - {x} :: T.NoLater(jobs[y], jobs[other]);
      var first := if T.NoLater(jobs[x], jobs[y]) then x else y;
      forall other | other in among ensures T.NoLater(jobs[first], jobs[other]) {
        assert other == x || other in among - {x};
      }
    }
  }

  lemma {:induction false} HasFirstQueued(refills: map<RefillId, RefillTask>, among: set<RefillId>)
    requires among != {} && among <= refills.Keys
    ensures exists r :: r in among && forall q | q in among :: refills[r].createdAt <= refills[q].createdAt
  {
    var x :| x in among;
    if among != {x} {
      HasFirstQueued(refills, among - {x});
      var y :| y in among - {x} && forall q | q in among - {x} :: refills[y].createdAt <= refills[q].createdAt;
      var first := if refills[x].createdAt <= refills[y].createdAt then x else y;
      forall q | q in among ensures refills[first].createdAt <= refills[q].createdAt {
        assert q == x || q in among - {x};
      }
    }
  }

  // ----- refusals, in the order the admission loop makes them

  function AfterRefusals(db: Db, refused: seq<JobId>): Db
    requires forall i | 0 <= i < |refused| :: refused[i] in db.jobs
    decreases |refused|
  {
    if refused == [] then db else AfterRefusals(T.Refuse(db, refused[0]), refused[1..])
  }

  predicate RefusedInTurn(db: Db, now: Time, allowed: set<ProviderId>, refused: seq<JobId>)
    decreases |refused|
  {
    && (forall i | 0 <= i < |refused| :: refused[i] in db.jobs)
    && (refused != [] ==>
          && T.FirstDue(db.jobs, now, refused[0]) && db.jobs[refused[0]].def.provider !in allowed
          && RefusedInTurn(T.Refuse(db, refused[0]), now, allowed, refused[1..]))
  }

  lemma {:induction false} OneMoreRefusal(db: Db, now: Time, allowed: set<ProviderId>, refused: seq<JobId>, id: JobId)
    requires RefusedInTurn(db, now, allowed, refused)
    requires T.FirstDue(AfterRefusals(db, refused).jobs, now, id)
    requires AfterRefusals(db, refused).jobs[id].def.provider !in allowed
    ensures RefusedInTurn(db, now, allowed, refused + [id])
    ensures AfterRefusals(db, refused + [id]) == T.Refuse(AfterRefusals(db, refused), id)
    decreases |refused|
  {
    if refused == [] {
      assert refused + [id] == [id];
    } else {
      assert (refused + [id])[1..] == refused[1..] + [id];
      OneMoreRefusal(T.Refuse(db, refused[0]), now, allowed, refused[1..], id);
    }
  }

  /** The loop's refusals followed by its last SELECT are one admission. */
  lemma {:induction false} RefusalsThenPick(
    db: Db, now: Time, allowed: set<ProviderId>, refused: seq<JobId>, pick: Option<JobId>, refill: Option<RefillId>,
    w: WorkerId, seconds: Time)
    requires RefusedInTurn(db, now, allowed, refused)
    requires T.Admits(AfterRefusals(db, refused), now, allowed, T.Admission([], pick, refill))
    ensures T.Admits(db, now, allowed, T.Admission(refused, pick, refill))
    ensures T.ClaimNext(db, w, now, seconds, allowed, T.Admission(refused, pick, refill))
            == T.ClaimNext(AfterRefusals(db, refused), w, now, seconds, allowed, T.Admission([], pick, refill))
    decreases |refused|
  {
    if refused != [] {
      RefusalsThenPick(T.Refuse(db, refused[0]), now, allowed, refused[1..], pick, refill, w, seconds);
    }
  }

  ghost function DueJobs(jobs: map<JobId, Job>, now: Time): set<JobId> {
    set id | id in jobs && T.Due(jobs[id], now)
  }

  /** Row by row, what the recovery loop leaves behind. */
  lemma RecoveredRows(db: Db, now: Time, jobs: map<JobId, Job>, refills: map<RefillId, RefillTask>)
    requires jobs.Keys == db.jobs.Keys && refills.Keys == db.refills.Keys
    requires forall id | id in jobs ::
      jobs[id] == if T.Expired(db.jobs[id], now) then T.Recovered(db.jobs[id], now) else db.jobs[id]
    requires forall r | r in refills ::
      refills[r] == if db.refills[r].job in db.jobs && T.Expired(db.jobs[db.refills[r].job], now)
                       && db.refills[r].status == RefillLeased
                    then db.refills[r].(status := RefillQueued, owner := None) else db.refills[r]
    ensures T.RecoverExpired(db, now).jobs == jobs && T.RecoverExpired(db, now).refills == refills
  {
  }

  class MiningStore {
    var jobs: map<JobId, Job>
    var pages: seq<Page>
    var versions: VersionTable
    var observations: seq<Observation>
    var gaps: GapTable
    var refills: map<RefillId, RefillTask>
    var revisionsDetected: nat

    function Tables(): Db
      reads this
    {
      Db(jobs, pages, versions, observations, gaps, refills, revisionsDetected)
    }

    /** The version table is the compressed log: what commit_page relies on and keeps. */
    ghost predicate Valid()
      reads this
    {
      versions == TableOf(observations) && revisionsDetected == RevisionCount(observations)
    }

    constructor ()
      ensures Tables() == EMPTY_DB && Valid()
    {
      jobs, pages, versions, observations, gaps, refills, revisionsDetected := map[], [], map[], [], map[], map[], 0;
      new;
      assert TableKeys([]) == {};
    }

    // ----- the API side

    method PauseJob(id: JobId, now: Time) returns (done: bool)
      modifies this`jobs
      ensures done == T.PauseJob(old(Tables()), id, now).Ok?
      ensures Tables() == OrKeep(T.PauseJob(old(Tables()), id, now), old(Tables()))
      ensures done ==> jobs == old(jobs)[id := jobs[id]] && (jobs[id].status == Paused || jobs[id].pauseRequested)
    {
      if id !in jobs {
        return false;
      }
      if Active(jobs[id].status) {
        jobs := jobs[id := jobs[id].(pauseRequested := true)];
      } else {
        jobs := jobs[id := jobs[id].(status := Paused, pauseRequested := false, nextRunAt := now, hold := NO_HOLD)];
      }
      done := true;
    }

    method ResumeJob(id: JobId, now: Time) returns (done: bool)
      modifies this`jobs
      ensures done == T.ResumeJob(old(Tables()), id, now).Ok?
      ensures Tables() == OrKeep(T.ResumeJob(old(Tables()), id, now), old(Tables()))
      ensures done ==> jobs == old(jobs)[id := jobs[id]] && T.Due(jobs[id], now) && jobs[id].hold == NO_HOLD
    {
      if id !in jobs {
        return false;
      }
      jobs := jobs[id := jobs[id].(status := Queued, pauseRequested := false, nextRunAt := now, hold := NO_HOLD)];
      done := true;
    }

    method RunNow(id: JobId, now: Time) returns (done: bool)
      modifies this`jobs
      ensures done == T.RunNow(old(Tables()), id, now).Ok?
      ensures Tables() == OrKeep(T.RunNow(old(Tables()), id, now), old(Tables()))
      ensures done ==> jobs == old(jobs)[id := jobs[id]] && (Active(jobs[id].status) || T.Claimable(jobs[id].status))
    {
      if id !in jobs {
        return false;
      }
      if !Active(jobs[id].status) {
        if jobs[id].status == Paused {
          return false;
        }
        jobs := jobs[id := jobs[id].(status := Queued, nextRunAt := now)];
      }
      done := true;
    }

    method QueueRefill(id: JobId, gap: GapKey, cursor: Cursor, refill: RefillId, now: Time) returns (done: bool)
      modifies this`jobs, this`gaps, this`refills
      ensures done == T.QueueRefill(old(Tables()), id, gap, cursor, refill, now).Ok?
      ensures Tables() == OrKeep(T.QueueRefill(old(Tables()), id, gap, cursor, refill, now), old(Tables()))
      ensures done ==> exists r | r in refills :: refills[r].gap == gap && T.Pending(refills[r])
    {
      if id !in jobs || gap.job != id || gap !in gaps || gaps[gap].status == Resolved {
        return false;
      }
      done := true;
      if exists r | r in refills :: refills[r].gap == gap && T.Pending(refills[r]) {
        return;
      }
      refills := refills[refill := RefillTask(id, gap, cursor, RefillQueued, None, now)];
      assert refill in refills && refills[refill].gap == gap && T.Pending(refills[refill]);
      gaps := gaps[gap := gaps[gap].(status := BackfillQueued)];
      var status := if jobs[id].status == Paused || Active(jobs[id].status) then jobs[id].status else Queued;
      jobs := jobs[id := jobs[id].(status := status, nextRunAt := now)];
    }

    // ----- leases

    method RecoverLease(id: JobId, now: Time)
      requires id in jobs
      modifies this`jobs, this`refills
      ensures jobs == old(jobs)[id := T.Recovered(old(jobs)[id], now)]
      ensures refills == T.MoveRefills(old(refills), id, RefillLeased, RefillQueued)
    {
      var j := jobs[id];
      jobs := jobs[id := j.(status := if j.pauseRequested then Paused else RetryWait, nextRunAt := now,
                            hold := NO_HOLD, work := NO_WORK, pauseRequested := false)];
      refills := T.MoveRefills(refills, id, RefillLeased, RefillQueued);
    }

    method RecoverExpiredLeases(now: Time) returns (count: nat)
      modifies this`jobs, this`refills
      ensures Tables() == T.RecoverExpired(old(Tables()), now)
      ensures count == |set id | id in old(jobs) && T.Expired(old(jobs)[id], now)|
    {
      var expired := set id | id in jobs && T.Expired(jobs[id], now);
      count := |expired|;
      var rest := expired;
      ghost var jobs0, refills0 := jobs, refills;
      while rest != {}
        invariant rest <= expired && jobs.Keys == jobs0.Keys && refills.Keys == refills0.Keys
        invariant forall id | id in jobs ::
          jobs[id] == if id in expired - rest then T.Recovered(jobs0[id], now) else jobs0[id]
        invariant forall r | r in refills ::
          refills[r] == if refills0[r].job in expired - rest && refills0[r].status == RefillLeased
                        then refills0[r].(status := RefillQueued, owner := None) else refills0[r]
        decreases |rest|
      {
        var id := PickOne(rest);
        RecoverLease(id, now);
        rest := rest - {id};
      }
      RecoveredRows(old(Tables()), now, jobs, refills);
    }

    /** The first due row, if any. */
    method SelectDue(now: Time) returns (pick: Option<JobId>)
      ensures match pick
              case None => forall id | id in jobs :: !T.Due(jobs[id], now)
              case Some(id) => T.FirstDue(jobs, now, id)
    {
      var due := set id | id in jobs && T.Due(jobs[id], now);
      if due == {} {
        assert forall id | id in jobs && T.Due(jobs[id], now) :: id in due;
        return None;
      }
      HasFirstDue(jobs, due);
      var id :| id in due && forall other | other in due :: T.NoLater(jobs[id], jobs[other]);
      pick := Some(id);
    }

    /** The oldest queued refill of a job, if any. */
    method SelectRefill(job: JobId) returns (refill: Option<RefillId>)
      ensures match refill
              case None => !T.HasQueued(refills, job)
              case Some(r) => T.FirstQueued(refills, job, r)
    {
      var queued := set r | r in refills && refills[r].job == job && refills[r].status == RefillQueued;
      if queued == {} {
        assert forall r | r in refills && refills[r].job == job && refills[r].status == RefillQueued :: r in queued;
        return None;
      }
      HasFirstQueued(refills, queued);
      var r :| r in queued && forall q | q in queued :: refills[r].createdAt <= refills[q].createdAt;
      refill := Some(r);
    }

    /** The admission loop blocks one due job a turn, so it ends. */
    method ClaimNext(w: WorkerId, now: Time, seconds: Time, allowed: set<ProviderId>) returns (a: T.Admission)
      modifies this`jobs, this`refills
      ensures T.Admits(old(Tables()), now, allowed, a)
      ensures Tables() == T.ClaimNext(old(Tables()), w, now, seconds, allowed, a)
    {
      ghost var db := Tables();
      var refused: seq<JobId> := [];
      var pick := SelectDue(now);
      while pick.Some? && jobs[pick.value].def.provider !in allowed
        invariant RefusedInTurn(db, now, allowed, refused) && Tables() == AfterRefusals(db, refused)
        invariant match pick
                  case None => forall id | id in jobs :: !T.Due(jobs[id], now)
                  case Some(id) => T.FirstDue(jobs, now, id)
        decreases DueJobs(jobs, now)
      {
        var id := pick.value;
        ghost var due := DueJobs(jobs, now);
        OneMoreRefusal(db, now, allowed, refused, id);
        jobs := jobs[id := jobs[id].(status := Blocked, hold := NO_HOLD, work := NO_WORK)];
        refills := T.MoveRefills(refills, id, RefillQueued, RefillFailed);
        refused := refused + [id];
        assert id in due && id !in DueJobs(jobs, now);
        pick := SelectDue(now);
      }
      var refill := None;
      ghost var mid := Tables();
      if pick.Some? {
        var id := pick.value;
        refill := SelectRefill(id);
        jobs := jobs[id := T.LeasedBy(jobs[id], w, now, seconds)];
        if refill.Some? {
          refills := refills[refill.value := refills[refill.value].(status := RefillLeased, owner := Some(w))];
        }
      }
      a := T.Admission(refused, pick, refill);
      assert T.Admits(mid, now, allowed, T.Admission([], pick, refill));
      RefusalsThenPick(db, now, allowed, refused, pick, refill, w, seconds);
    }

    method BeginActive(id: JobId, w: WorkerId, lane: Lane, cursor: Cursor, refill: Option<RefillId>,
                       now: Time, seconds: Time) returns (held: bool)
      modifies this`jobs
      ensures held == T.BeginActive(old(Tables()), id, w, lane, cursor, refill, now, seconds).Ok?
      ensures Tables() == OrKeep(T.BeginActive(old(Tables()), id, w, lane, cursor, refill, now, seconds), old(Tables()))
      ensures held ==> jobs == old(jobs)[id := jobs[id]] && T.Owns(Tables(), id, w) && jobs[id].status == Leased
    {
      held := id in jobs && jobs[id].hold.owner == Some(w) && jobs[id].status == Leased;
      if held {
        jobs := jobs[id := jobs[id].(work := Work(Some(cursor), Some(lane), refill), hold := HoldOf(w, now, seconds))];
      }
    }

    method Transition(id: JobId, w: WorkerId, status: Status, now: Time, seconds: Time) returns (held: bool)
      modifies this`jobs
      ensures held == T.Transition(old(Tables()), id, w, status, now, seconds).Ok?
      ensures Tables() == OrKeep(T.Transition(old(Tables()), id, w, status, now, seconds), old(Tables()))
      ensures held ==> jobs == old(jobs)[id := jobs[id]] && T.Owns(Tables(), id, w) && jobs[id].status == status
    {
      held := Active(status) && id in jobs && jobs[id].hold.owner == Some(w) && Active(jobs[id].status);
      if held {
        jobs := jobs[id := jobs[id].(status := status, hold := HoldOf(w, now, seconds))];
      }
    }

    method Heartbeat(id: JobId, w: WorkerId, now: Time, seconds: Time) returns (held: bool)
      modifies this`jobs
      ensures held == T.Heartbeat(old(Tables()), id, w, now, seconds).Ok?
      ensures Tables() == OrKeep(T.Heartbeat(old(Tables()), id, w, now, seconds), old(Tables()))
      ensures held ==> jobs == old(jobs)[id := jobs[id]] && T.Owns(Tables(), id, w) && !T.Expired(jobs[id], now + seconds)
    {
      held := id in jobs && jobs[id].hold.owner == Some(w) && Active(jobs[id].status);
      if held {
        jobs := jobs[id := jobs[id].(hold := HoldOf(w, now, seconds))];
      }
    }

    method RetryJob(id: JobId, w: WorkerId, retryAfter: Option<Time>, jitter: Time, now: Time)
      modifies this`jobs, this`refills
      ensures Tables() == T.RetryJob(old(Tables()), id, w, retryAfter, jitter, now)
      ensures !T.Owns(Tables(), id, w) && (T.Owns(old(Tables()), id, w) ==> jobs[id].nextRunAt >= now)
    {
      if id !in jobs || jobs[id].hold.owner != Some(w) {
        return;
      }
      var j := jobs[id];
      var delay := T.RetryDelay(j.failures + 1, retryAfter, jitter);
      jobs := jobs[id := j.(status := if j.pauseRequested then Paused else RetryWait, nextRunAt := now + delay,
                            hold := NO_HOLD, work := NO_WORK, pauseRequested := false, failures := j.failures + 1)];
      refills := T.MoveRefills(refills, id, RefillLeased, RefillQueued);
    }

    method BlockJob(id: JobId, w: WorkerId)
      modifies this`jobs, this`refills
      ensures Tables() == T.BlockJob(old(Tables()), id, w)
      ensures !T.Owns(Tables(), id, w)
    {
      if id in jobs && jobs[id].hold.owner == Some(w) {
        jobs := jobs[id := jobs[id].(status := Blocked, hold := NO_HOLD, work := NO_WORK)];
      }
      refills := T.MoveRefills(refills, id, RefillLeased, RefillFailed);
    }

    method ReleaseJob(id: JobId, w: WorkerId, now: Time)
      modifies this`jobs, this`refills
      ensures Tables() == T.ReleaseJob(old(Tables()), id, w, now)
      ensures !T.Owns(Tables(), id, w)
    {
      if id !in jobs || jobs[id].hold.owner != Some(w) {
        return;
      }
      var j := jobs[id];
      jobs := jobs[id := j.(status := if j.pauseRequested then Paused else Queued, nextRunAt := now,
                            hold := NO_HOLD, work := NO_WORK, pauseRequested := false)];
      refills := T.MoveRefills(refills, id, RefillLeased, RefillQueued);
    }

    // ----- the gap index

    /** zip(sorted(n), sorted(n)[1:]): repeatedly take the smallest time and pair it with the one before. */
    static method SortedPairs(n: set<Time>) returns (pairs: set<(Time, Time)>)
      ensures pairs == AdjacentPairs(n)
    {
      pairs := {};
      if n == {} {
        return;
      }
      var last := Least(n);
      var rest := n - {last};
      while rest != {}
        invariant last in n && rest == set x | x in n && x > last
        invariant pairs == set p, q | p in n && q in n && Adjacent(n, p, q) && q <= last :: (p, q)
        decreases |rest|
      {
        var q := Least(rest);
        assert forall x | x in n && x > last :: x in rest;
        assert Adjacent(n, last, q);
        StepPairs(n, last, q);
        pairs := pairs + {(last, q)};
        rest := rest - {q};
        last := q;
      }
    }

    /** The unresolved rows around the touched times, and the neighbouring pairs seen from them. */
    method Survey(job: JobId, times: set<Time>, affected: set<Time>)
      returns (touched: set<GapKey>, localPairs: set<(Time, Time)>)
      ensures touched == Touched(gaps, job, affected)
      ensures localPairs == LocalPairs(times, affected)
    {
      touched, localPairs := {}, {};
      var rest := affected;
      while rest != {}
        invariant rest <= affected
        invariant touched == Touched(gaps, job, affected - rest)
        invariant localPairs == LocalPairs(times, affected - rest)
        decreases |rest|
      {
        var t := PickOne(rest);
        var near := SortedPairs(Neighbourhood(times, t));
        SeenFrom(gaps, times, job, affected - rest, t);
        touched := touched + set k | k in gaps && k.job == job && gaps[k].status != Resolved && k.previous <= t <= k.following;
        localPairs := localPairs + near;
        assert affected - rest + {t} == affected - (rest - {t});
        rest := rest - {t};
      }
      assert affected - rest == affected;
    }

    /** _recompute_gaps_incremental. */
    method RecomputeGaps(job: JobId, step: Option<Time>, affected: set<Time>)
      modifies this`gaps
      ensures gaps == Recomputed(old(gaps), job, step, CurrentTimes(versions, job), affected)
    {
      if step.None? || step.value <= 0.0 || affected == {} {
        return;
      }
      var touched, localPairs := Survey(job, CurrentTimes(versions, job), affected);
      var found := UpsertGaps(job, step.value, localPairs);
      ResolveGaps(touched - found);
    }

    /** INSERT ... ON CONFLICT(job_id, previous_event_time, next_event_time) DO UPDATE. */
    method UpsertGap(key: GapKey, step: Time)
      requires step > 0.0
      modifies this`gaps
      ensures gaps == old(gaps)[key := Upserted(old(gaps), key, step)]
    {
      var status := if key in gaps && gaps[key].status == BackfillQueued then BackfillQueued else Open;
      var estimated := Estimate(key.previous, key.following, step);
      gaps := gaps[key := Gap(key.previous + step, key.following - step, estimated, status)];
    }

    /** Record every wide pair; returns the keys it wrote. */
    method UpsertGaps(job: JobId, step: Time, pairs: set<(Time, Time)>) returns (found: set<GapKey>)
      requires step > 0.0
      modifies this`gaps
      ensures found == FoundKeys(job, step, pairs)
      ensures gaps == UpsertAll(old(gaps), found, step)
    {
      found := {};
      var rest := pairs;
      assert pairs - rest == {};
      while rest != {}
        invariant rest <= pairs && found == FoundKeys(job, step, pairs - rest)
        invariant gaps == UpsertAll(old(gaps), found, step)
        decreases |rest|
      {
        var pair := PickOne(rest);
        FoundOne(job, step, pairs - rest, pair);
        assert pairs - rest + {pair} == pairs - (rest - {pair});
        rest := rest - {pair};
        if Recorded(pair.0, pair.1, step) {
          UpsertOne(old(gaps), found, GapKey(job, pair.0, pair.1), step);
          UpsertGap(GapKey(job, pair.0, pair.1), step);
          found := found + {GapKey(job, pair.0, pair.1)};
        }
      }
      assert pairs - rest == pairs;
    }

    method ResolveGaps(keys: set<GapKey>)
      modifies this`gaps
      ensures gaps == ResolveAll(old(gaps), keys)
    {
      var rest := keys;
      ghost var before := gaps;
      while rest != {}
        invariant rest <= keys && gaps == ResolveAll(before, keys - rest)
        decreases |rest|
      {
        var key := PickOne(rest);
        if key in gaps {
          gaps := gaps[key := gaps[key].(status := Resolved)];
        }
        assert keys - rest + {key} == keys - (rest - {key});
        rest := rest - {key};
      }
      assert keys - rest == keys;
    }

    // ----- the page commit

    /** SELECT * FROM record_versions WHERE ... AND is_current=1. */
    method SelectCurrentRow(job: JobId, id: Identity) returns (current: Option<VersionKey>)
      requires versions == TableOf(observations)
      ensures current == CurrentKey(observations, job, id)
      ensures current.Some? ==> current.value in versions && versions[current.value] == Last(ChainOf(observations, job, id))
    {
      ghost var expected := CurrentKey(observations, job, id);
      CurrentKeyIsThere(observations, job, id);
      if expected.Some? {
        CurrentRowIsLast(observations, job, id, expected.value);
      }
      if k :| k in versions && IsCurrentRow(versions, job, id, k) {
        CurrentRowIsLast(observations, job, id, k);
        current := Some(k);
      } else {
        current := None;
      }
    }

    /** One entry: its version row, and its observation row. Says whether it revised, and whose time it met. */
    method RecordEntry(o: Observation) returns (revised: bool, met: Option<Time>)
      requires versions == TableOf(observations)
      modifies this`versions, this`observations
      ensures observations == old(observations) + [o] && versions == TableOf(observations)
      ensures revised == Revises(old(observations), o)
      ensures met == CurrentTime(old(observations), o.job, o.entry.identity)
    {
      var current := SelectCurrentRow(o.job, o.entry.identity);
      TableStep(observations, o);
      revised, met := WriteVersion(current, o);
      observations := observations + [o];
    }

    method WriteVersion(current: Option<VersionKey>, o: Observation) returns (revised: bool, met: Option<Time>)
      requires current.Some? ==> current.value in versions
      modifies this`versions
      ensures versions == Observed(old(versions), current, o)
      ensures revised <==> current.Some? && old(versions)[current.value].hash != o.entry.hash
      ensures met == if current.Some? then old(versions)[current.value].time else None
    {
      var id := o.entry.identity;
      revised, met := false, None;
      if current.None? {
        versions := versions[VersionKey(o.job, id, 1) := Fresh(o)];
      } else {
        var k := current.value;
        met := versions[k].time;
        if versions[k].hash == o.entry.hash {
          if o.entry.isFinal && !versions[k].isFinal {
            versions := versions[k := versions[k].(isFinal := true)];
          }
        } else {
          revised := true;
          versions := versions[k := versions[k].(isCurrent := false)]
                              [VersionKey(o.job, id, k.revision + 1) := Fresh(o)];
        }
      }
    }

    /** The entry loop: versions, observations, revision count and touched event times. */
    method RecordEntries(page: PageId, job: JobId, entries: seq<Entry>) returns (revisions: nat, affected: set<Time>)
      requires versions == TableOf(observations)
      modifies this`versions, this`observations
      ensures observations == old(observations) + PageObservations(page, job, entries)
      ensures versions == TableOf(observations)
      ensures RevisionCount(old(observations)) + revisions == RevisionCount(observations)
      ensures affected == AffectedTimes(old(observations), PageObservations(page, job, entries))
    {
      ghost var log, added := observations, PageObservations(page, job, entries);
      var met: set<Time> := {};
      revisions := 0;
      assert observations == log + added[..0];
      for line := 0 to |entries|
        invariant observations == log + added[..line] && versions == TableOf(observations)
        invariant RevisionCount(log) + revisions == RevisionCount(observations)
        invariant met == MetTimes(log, added[..line])
      {
        LineStep(log, added, line);
        LineMeets(log, added, line);
        var revised, time := RecordEntry(Observation(page, line, job, entries[line]));
        met := met + TimeSet(time);
        revisions := revisions + (if revised then 1 else 0);
      }
      assert added[..|entries|] == added;
      affected := (set i | 0 <= i < |entries| && entries[i].time.Some? :: entries[i].time.value) + met;
      EntryTimesOf(page, job, entries);
    }

    /** The page row, its entries, and the gaps around them. */
    method RecordPage(c: T.PageCommit, step: Option<Time>)
      requires versions == TableOf(observations) && revisionsDetected == RevisionCount(observations)
      modifies this`pages, this`versions, this`observations, this`gaps, this`revisionsDetected
      ensures pages == old(pages) + [T.PageOf(c)]
      ensures observations == old(observations) + PageObservations(c.page, c.job, c.entries)
      ensures versions == TableOf(observations) && revisionsDetected == RevisionCount(observations)
      ensures gaps == Recomputed(old(gaps), c.job, step, CurrentTimes(versions, c.job),
                                 AffectedTimes(old(observations), PageObservations(c.page, c.job, c.entries)))
    {
      pages := pages + [T.PageOf(c)];
      var revisions, affected := RecordEntries(c.page, c.job, c.entries);
      revisionsDetected := revisionsDetected + revisions;
      RecomputeGaps(c.job, step, affected);
    }

    /** commit_page from the lease check to the end of its transaction. */
    method CommitPage(c: T.PageCommit, now: Time) returns (status: Option<Status>)
      requires Valid()
      modifies this
      ensures Valid()
      ensures status == if T.MayCommit(old(Tables()), c) then Some(T.StatusAfter(old(jobs)[c.job], old(refills), c)) else None
      ensures Tables() == OrKeep(T.CommitPage(old(Tables()), c, now), old(Tables()))
      ensures status.Some? <==> T.CommitPage(old(Tables()), c, now).Ok?
      ensures status.Some? ==> c.job in jobs && status == Some(jobs[c.job].status)
      ensures pages == old(pages) + if status.Some? then [T.PageOf(c)] else []
      ensures status.Some? && status != Some(Leased) ==> !T.Owns(Tables(), c.job, c.owner)
      ensures status == Some(Leased) ==> c.next.Some? && T.Owns(Tables(), c.job, c.owner)
    {
      if c.job !in jobs || jobs[c.job].hold.owner != Some(c.owner) || jobs[c.job].status != Committing {
        return None;
      }
      var lease := jobs[c.job];
      RecordPage(c, lease.def.step);
      var outcome := LeaseOutcome(c, lease);
      status := Some(outcome);
      RecordOutcome(c, lease, outcome, now);
      CommitIs(old(Tables()), Tables(), c, now);
    }

    /** The status chain: paused, yield to a queued refill, continue, refill done, scheduled. */
    method LeaseOutcome(c: T.PageCommit, lease: Job) returns (status: Status)
      requires c.job in jobs && jobs[c.job] == lease
      ensures status == T.StatusAfter(lease, refills, c)
    {
      if lease.pauseRequested {
        status := Paused;
      } else if c.lane == MainLane && exists r | r in refills :: refills[r].job == c.job && refills[r].status == RefillQueued {
        status := Queued;
      } else if c.continueFetch && c.next.Some? {
        status := Leased;
      } else if c.lane == RefillLane {
        status := Queued;
      } else {
        status := Succeeded;
      }
    }

    /** The cursor, the refill row, and the final UPDATE of the job. */
    method RecordOutcome(c: T.PageCommit, lease: Job, status: Status, now: Time)
      requires c.job in jobs && jobs[c.job] == lease && status == T.StatusAfter(lease, refills, c)
      modifies this`jobs, this`refills
      ensures jobs == old(jobs)[c.job := T.JobAfter(lease, old(refills), c, now)]
      ensures refills == T.RefillsAfter(old(refills), c)
    {
      var j := lease;
      if c.lane == MainLane && c.next.Some? {
        j := j.(cursor := c.next);
      }
      if c.lane == RefillLane && c.refill.Some? && c.refill.value in refills {
        var r := c.refill.value;
        if !c.continueFetch || c.next.None? {
          refills := refills[r := refills[r].(status := RefillSucceeded, owner := None)];
        } else {
          refills := refills[r := refills[r].(cursor := c.next.value)];
        }
      }
      j := j.(status := status, pauseRequested := false, failures := 0);
      if status == Leased {
        j := j.(hold := HoldOf(c.owner, now, c.seconds), work := Work(c.next, Some(c.lane), c.refill));
      } else {
        j := j.(hold := NO_HOLD, work := NO_WORK,
                nextRunAt := if status == Succeeded then now + lease.def.scheduleSeconds as real else now);
      }
      jobs := jobs[c.job := j];
    }
  }

  lemma LineStep(log: seq<Observation>, added: seq<Observation>, line: nat)
    requires line < |added|
    ensures log + added[..line + 1] == (log + added[..line]) + [added[line]]
    ensures RevisionCount(log + added[..line + 1])
            == RevisionCount(log + added[..line]) + (if Revises(log + added[..line], added[line]) then 1 else 0)
  {
    assert log + added[..line + 1] == (log + added[..line]) + [added[line]];
    RevisionCountAppend(log + added[..line], added[line]);
  }

  lemma LineMeets(log: seq<Observation>, added: seq<Observation>, line: nat)
    requires line < |added|
    ensures MetTimes(log, added[..line + 1]) == MetTimes(log, added[..line])
            + TimeSet(CurrentTime(log + added[..line], added[line].job, added[line].entry.identity))
  {
    assert added[..line + 1][..line] == added[..line];
  }

  lemma EntryTimesOf(page: PageId, job: JobId, entries: seq<Entry>)
    ensures EntryTimes(PageObservations(page, job, entries))
            == set i | 0 <= i < |entries| && entries[i].time.Some? :: entries[i].time.value
  {
    assert forall i | 0 <= i < |entries| :: PageObservations(page, job, entries)[i].entry == entries[i];
  }

  lemma CommitIs(before: Db, after: Db, c: T.PageCommit, now: Time)
    requires T.MayCommit(before, c)
    requires after.jobs == before.jobs[c.job := T.JobAfter(before.jobs[c.job], before.refills, c, now)]
    requires after.refills == T.RefillsAfter(before.refills, c) && after.pages == before.pages + [T.PageOf(c)]
    requires after.observations == before.observations + PageObservations(c.page, c.job, c.entries)
    requires after.versions == TableOf(after.observations) && after.revisionsDetected == RevisionCount(after.observations)
    requires after.gaps == Recomputed(before.gaps, c.job, before.jobs[c.job].def.step, CurrentTimes(after.versions, c.job),
                                      AffectedTimes(before.observations, PageObservations(c.page, c.job, c.entries)))
    ensures T.CommitPage(before, c, now) == Ok(after)
  {
  }

  lemma FoundOne(job: JobId, step: Time, pairs: set<(Time, Time)>, pair: (Time, Time))
    requires step > 0.0
    ensures FoundKeys(job, step, pairs + {pair}) == FoundKeys(job, step, pairs)
            + (if Recorded(pair.0, pair.1, step) then {GapKey(job, pair.0, pair.1)} else {})
  {
  }

  lemma UpsertOne(before: GapTable, found: set<GapKey>, key: GapKey, step: Time)
    requires step > 0.0
    ensures UpsertAll(before, found + {key}, step)
            == UpsertAll(before, found, step)[key := Upserted(UpsertAll(before, found, step), key, step)]
  {
  }

  lemma StepPairs(n: set<Time>, last: Time, q: Time)
    requires Adjacent(n, last, q)
    ensures (set a, b | a in n && b in n && Adjacent(n, a, b) && b <= q :: (a, b))
            == (set a, b | a in n && b in n && Adjacent(n, a, b) && b <= last :: (a, b)) + {(last, q)}
  {
  }

  lemma SeenFrom(gaps: GapTable, times: set<Time>, job: JobId, seen: set<Time>, t: Time)
    ensures Touched(gaps, job, seen + {t}) == Touched(gaps, job, seen)
            + set k | k in gaps && k.job == job && gaps[k].status != Resolved && k.previous <= t <= k.following
    ensures LocalPairs(times, seen + {t}) == LocalPairs(times, seen) + AdjacentPairs(Neighbourhood(times, t))
  {
  }
}
