/**
 * The database and the evidence files together: the mining protocol and the disk
 * protocol interleave freely and meet in one step, the page commit.
 */
module StoreOnDisk {
  import opened Tables
  import opened Revisions
  import T = Transactions
  import P = Protocol
  import L = LeaseInvariants
  import R = RecordInvariants
  import E = Evidence

  datatype Joint = Joint(sys: P.Sys, world: E.World)

  /** A step of the disk, a step of the database, or the transaction of a commit whose files are in place. */
  datatype Action = OnDisk(move: E.Move) | InDatabase(moment: P.Moment) | CommitsPage(moment: P.Moment)

  /** The event is a commit that goes through. */
  predicate Commits(s: P.Sys, m: P.Moment)
    requires P.Enabled(s, m)
  {
    m.event.Commit? && T.MayCommit(s.db, P.CommitOf(m.event.w, s.workers[m.event.w], m.event))
  }

  /** The files in place are those of the page that is committed. */
  predicate Writes(w: E.World, c: T.PageCommit) {
    && E.Can(w, E.CommitRow)
    && w.phase.page.id == c.page && w.phase.page.job == c.job && w.phase.page.entries == c.entries
  }

  predicate CanAct(j: Joint, a: Action) {
    match a
    case OnDisk(m) => E.Can(j.world, m) && !m.CommitRow?
    case InDatabase(m) => P.Enabled(j.sys, m) && !Commits(j.sys, m)
    case CommitsPage(m) =>
      && P.Enabled(j.sys, m) && Commits(j.sys, m)
      && Writes(j.world, P.CommitOf(m.event.w, j.sys.workers[m.event.w], m.event))
  }

  function Act(j: Joint, a: Action): Joint
    requires CanAct(j, a)
  {
    match a
    case OnDisk(m) => j.(world := E.Next(j.world, m))
    case InDatabase(m) => j.(sys := P.Step(j.sys, m))
    case CommitsPage(m) => Joint(P.Step(j.sys, m), E.Next(j.world, E.CommitRow))
  }

  /** The pages and observations of the database are the ones the disk holds evidence for. */
  ghost predicate Linked(db: Db, w: E.World) {
    && w.observations == db.observations && |w.pages| == |db.pages|
    && forall i | 0 <= i < |db.pages| :: w.pages[i].id == db.pages[i].id && w.pages[i].job == db.pages[i].job
  }

  ghost predicate Sound(j: Joint) {
    Linked(j.sys.db, j.world) && E.Durable(j.world) && R.RecordInv(j.sys.db)
  }

  /** Only a commit that goes through touches pages and observations. */
  lemma LogsKept(s: P.Sys, m: P.Moment)
    requires P.Enabled(s, m) && !Commits(s, m)
    ensures P.DbStep(s, m).pages == s.db.pages && P.DbStep(s, m).observations == s.db.observations
  {
    L.PagesStep(s, m);
    if !m.event.Commit? && !m.event.AskRefill? {
      R.RecordsKeptStep(s, m);
    }
  }

  lemma CommitStaysLinked(s: P.Sys, w: E.World, m: P.Moment)
    requires P.Enabled(s, m) && Commits(s, m) && Linked(s.db, w)
    requires Writes(w, P.CommitOf(m.event.w, s.workers[m.event.w], m.event))
    ensures Linked(P.DbStep(s, m), E.Next(w, E.CommitRow))
  {
    var c := P.CommitOf(m.event.w, s.workers[m.event.w], m.event);
    var db, after := P.DbStep(s, m), E.Next(w, E.CommitRow);
    assert db == T.CommitPage(s.db, c, m.now).value;
    assert db.pages == s.db.pages + [T.PageOf(c)] && after.pages == w.pages + [w.phase.page];
    assert db.observations == s.db.observations + PageObservations(c.page, c.job, c.entries);
  }

  lemma SoundStep(j: Joint, a: Action)
    requires CanAct(j, a) && Sound(j)
    ensures Sound(Act(j, a))
  {
    match a
    case OnDisk(m) =>
      E.DurableNext(j.world, m);
    case InDatabase(m) =>
      R.RecordInvStep(j.sys, m);
      LogsKept(j.sys, m);
    case CommitsPage(m) =>
      R.RecordInvStep(j.sys, m);
      E.DurableNext(j.world, E.CommitRow);
      CommitStaysLinked(j.sys, j.world, m);
  }

  ghost predicate Runs(j: Joint, actions: seq<Action>)
    decreases |actions|
  {
    actions == [] || (CanAct(j, actions[0]) && Runs(Act(j, actions[0]), actions[1..]))
  }

  ghost function End(j: Joint, actions: seq<Action>): Joint
    requires Runs(j, actions)
    decreases |actions|
  {
    if actions == [] then j else End(Act(j, actions[0]), actions[1..])
  }

  lemma {:induction false} SoundOnEveryRun(j: Joint, actions: seq<Action>)
    requires Sound(j) && Runs(j, actions)
    ensures Sound(End(j, actions))
    decreases |actions|
  {
    if actions != [] {
      SoundStep(j, actions[0]);
      SoundOnEveryRun(Act(j, actions[0]), actions[1..]);
    }
  }

  const START := Joint(P.INITIAL, E.World(map[], [], [], E.Stopped))

  /**
   * Over every interleaving of workers, API calls, lease recoveries, file writes,
   * failures and crashes: every page row has both its files, and every version row
   * of the database reads back exactly the record it was written from.
   */
  lemma EveryRowHasItsEvidence(actions: seq<Action>)
    requires Runs(START, actions)
    ensures var j := End(START, actions);
            && Linked(j.sys.db, j.world) && E.AllWhole(j.world)
            && forall k | k in j.sys.db.versions ::
                 exists n :: E.ReadsBack(j.sys.db.observations, j.world.files, k, j.sys.db.versions[k], n)
  {
    R.InitialRecords();
    SoundOnEveryRun(START, actions);
    var j := End(START, actions);
    forall k | k in j.sys.db.versions
      ensures exists n :: E.ReadsBack(j.sys.db.observations, j.world.files, k, j.sys.db.versions[k], n)
    {
      E.VersionsReadBack(j.world, k);
    }
  }
}
