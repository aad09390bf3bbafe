/** The tables of the mining database (mining/store.py) and the rows they hold. */
module Tables {
  import opened Options

  datatype JobId = JobId(name: string)
  datatype WorkerId = WorkerId(name: string)
  datatype ProviderId = ProviderId(name: string)
  datatype PageId = PageId(hex: string)
  datatype RefillId = RefillId(hex: string)
  datatype Identity = Identity(hash: string)

  /** Provider cursors, ordered as the provider pages through its history. */
  type Cursor = int

  /** Seconds on the clock, or the provider's own event-time unit. */
  type Time = real

  datatype Status = Queued | Leased | Fetching | Committing | RetryWait | Blocked | Paused | Succeeded

  predicate Active(s: Status) {
    s == Leased || s == Fetching || s == Committing
  }

  datatype Lane = MainLane | RefillLane

  /**
   * The columns of `jobs` that create_job writes and nothing changes. `providerStart`
   * is what the provider's initial_cursor yields for the job's configuration.
   */
  datatype Definition = Definition(
    provider: ProviderId,
    scheduleSeconds: nat,
    step: Option<Time>,
    initialCursor: Option<Cursor>,
    providerStart: Cursor,
    createdAt: Time)

  /** The lease_owner, lease_expires_at and heartbeat_at columns. */
  datatype Hold = Hold(owner: Option<WorkerId>, expiresAt: Option<Time>, heartbeatAt: Option<Time>)

  /** The active_cursor_json, active_lane and active_refill_id columns. */
  datatype Work = Work(cursor: Option<Cursor>, lane: Option<Lane>, refill: Option<RefillId>)

  const NO_HOLD := Hold(None, None, None)
  const NO_WORK := Work(None, None, None)

  /** A row of `jobs`. `attempts` numbers the claims. */
  datatype Job = Job(
    def: Definition,
    status: Status,
    cursor: Option<Cursor>,
    work: Work,
    nextRunAt: Time,
    hold: Hold,
    pauseRequested: bool,
    attempts: nat,
    failures: nat)

  function HoldOf(w: WorkerId, now: Time, seconds: Time): Hold {
    Hold(Some(w), Some(now + seconds), Some(now))
  }

  /** One normalized provider record of a page, as record_entries builds it. */
  datatype Entry = Entry(identity: Identity, hash: string, time: Option<Time>, isFinal: bool, record: string)

  /** A row of `pages`, in commit order. `owner` and `claim` say which claim committed it. */
  datatype Page = Page(
    id: PageId,
    job: JobId,
    lane: Lane,
    refill: Option<RefillId>,
    request: Cursor,
    next: Option<Cursor>,
    owner: WorkerId,
    claim: nat)

  /** A row of `record_observations`, with the entry it was made from. */
  datatype Observation = Observation(page: PageId, line: nat, job: JobId, entry: Entry)

  datatype VersionKey = VersionKey(job: JobId, identity: Identity, revision: int)

  /** A row of `record_versions`. */
  datatype Version = Version(hash: string, time: Option<Time>, isFinal: bool, page: PageId, line: nat, isCurrent: bool)

  datatype GapKey = GapKey(job: JobId, previous: Time, following: Time)

  datatype GapStatus = Open | BackfillQueued | Resolved

  /** A row of `gaps`. */
  datatype Gap = Gap(missingStart: Time, missingEnd: Time, estimated: int, status: GapStatus)

  datatype RefillStatus = RefillQueued | RefillLeased | RefillSucceeded | RefillFailed

  /** A row of `refill_tasks`. */
  datatype RefillTask = RefillTask(
    job: JobId, gap: GapKey, cursor: Cursor, status: RefillStatus, owner: Option<WorkerId>, createdAt: Time)

  type VersionTable = map<VersionKey, Version>
  type GapTable = map<GapKey, Gap>

  /** The whole database between two transactions. */
  datatype Db = Db(
    jobs: map<JobId, Job>,
    pages: seq<Page>,
    versions: VersionTable,
    observations: seq<Observation>,
    gaps: GapTable,
    refills: map<RefillId, RefillTask>,
    revisionsDetected: nat)

  const EMPTY_DB := Db(map[], [], map[], [], map[], map[], 0)
}
