/**
 * The record revision table (mining/store.py, commit_page): a compressed form of
 * the observation log, one row per run of equal hashes of an identity.
 */
module Revisions {
  import opened Options
  import opened Tables
  import opened Collections
  import opened GapIndex

  // ----- the log of one identity, and its runs

  predicate About(o: Observation, job: JobId, id: Identity) {
    o.job == job && o.entry.identity == id
  }

  /** The observations of one identity, in commit order. */
  function Seen(log: seq<Observation>, job: JobId, id: Identity): seq<Observation> {
    if log == [] then []
    else
      var o := log[|log| - 1];
      Seen(log[..|log| - 1], job, id) + (if About(o, job, id) then [o] else [])
  }

  function Fresh(o: Observation): Version {
    Version(o.entry.hash, o.entry.time, o.entry.isFinal, o.page, o.line, true)
  }

  /** One more observation: a new revision, or a confirmation of the current one. */
  function Extended(chain: seq<Version>, o: Observation): seq<Version> {
    if chain == [] then [Fresh(o)]
    else if Last(chain).hash == o.entry.hash then
      chain[|chain| - 1 := Last(chain).(isFinal := Last(chain).isFinal || o.entry.isFinal)]
    else chain[|chain| - 1 := Last(chain).(isCurrent := false)] + [Fresh(o)]
  }

  /** The revision chain of a sequence of observations of one identity. */
  function Collapse(obs: seq<Observation>): (chain: seq<Version>)
    ensures |chain| <= |obs|
    ensures obs != [] ==> chain != []
  {
    if obs == [] then [] else Extended(Collapse(obs[..|obs| - 1]), Last(obs))
  }

  function ChainOf(log: seq<Observation>, job: JobId, id: Identity): seq<Version> {
    Collapse(Seen(log, job, id))
  }

  function NextRun(runs: seq<int>, obs: seq<Observation>, o: Observation): int
    requires |runs| == |obs|
  {
    if obs == [] then 1 else Last(runs) + (if Last(obs).entry.hash == o.entry.hash then 0 else 1)
  }

  /** Which run of equal hashes each observation belongs to, counted from 1. */
  function Runs(obs: seq<Observation>): (runs: seq<int>)
    ensures |runs| == |obs|
  {
    if obs == [] then []
    else
      var before := obs[..|obs| - 1];
      Runs(before) + [NextRun(Runs(before), before, Last(obs))]
  }

  /** The chain has one row per run, 1 to k without holes; the last row, and only it, is current. */
  ghost predicate RowsAreRuns(obs: seq<Observation>, runs: seq<int>, chain: seq<Version>) {
    && |runs| == |obs|
    && |chain| == (if obs == [] then 0 else Last(runs))
    && (forall r | 0 <= r < |chain| :: chain[r].isCurrent <==> r == |chain| - 1)
    && (forall r | 0 < r < |chain| :: chain[r - 1].hash != chain[r].hash)
    && (forall i | 0 <= i < |obs| :: 1 <= runs[i] <= |chain| && chain[runs[i] - 1].hash == obs[i].entry.hash)
  }

  /** Observation i is final, and row r stands for its run. */
  predicate FinalIn(obs: seq<Observation>, runs: seq<int>, i: int, r: int) {
    0 <= i < |obs| && i < |runs| && runs[i] == r + 1 && obs[i].entry.isFinal
  }

  /** Observation i opens the run that row r stands for. */
  predicate Opens(runs: seq<int>, i: int, r: int) {
    0 <= i < |runs| && runs[i] == r + 1 && (i == 0 || runs[i - 1] == r)
  }

  predicate Addresses(v: Version, o: Observation) {
    v.page == o.page && v.line == o.line && v.time == o.entry.time
  }

  /** A row is final when some observation of its run was, and keeps the address of the first. */
  ghost predicate RowsSummarize(obs: seq<Observation>, runs: seq<int>, chain: seq<Version>) {
    && |runs| == |obs|
    && (forall r | 0 <= r < |chain| :: chain[r].isFinal <==> exists i :: FinalIn(obs, runs, i, r))
    && (forall i, r | Opens(runs, i, r) && 0 <= r < |chain| :: Addresses(chain[r], obs[i]))
  }

  lemma RowsStep(obs: seq<Observation>, runs: seq<int>, chain: seq<Version>, o: Observation)
    requires RowsAreRuns(obs, runs, chain)
    ensures RowsAreRuns(obs + [o], runs + [NextRun(runs, obs, o)], Extended(chain, o))
  {
    if obs != [] {
      assert chain[runs[|obs| - 1] - 1].hash == Last(obs).entry.hash;
    }
  }

  lemma SummaryStep(obs: seq<Observation>, runs: seq<int>, chain: seq<Version>, o: Observation)
    requires RowsAreRuns(obs, runs, chain) && RowsSummarize(obs, runs, chain)
    ensures RowsSummarize(obs + [o], runs + [NextRun(runs, obs, o)], Extended(chain, o))
  {
    var obs', runs', chain' := obs + [o], runs + [NextRun(runs, obs, o)], Extended(chain, o);
    RowsStep(obs, runs, chain, o);
    forall r | 0 <= r < |chain'| ensures chain'[r].isFinal <==> exists i :: FinalIn(obs', runs', i, r) {
      FinalStep(obs, runs, chain, o, r);
    }
    forall i, r | Opens(runs', i, r) && 0 <= r < |chain'| ensures Addresses(chain'[r], obs'[i]) {
      if i < |obs| {
        assert runs'[i] == runs[i] && Opens(runs, i, r);
        assert r < |chain| && Addresses(chain[r], obs[i]);
      } else if i > 0 {
        assert runs'[i - 1] == Last(runs) && r == |chain|;
      }
    }
  }

  lemma FinalStep(obs: seq<Observation>, runs: seq<int>, chain: seq<Version>, o: Observation, r: nat)
    requires RowsAreRuns(obs, runs, chain) && RowsSummarize(obs, runs, chain)
    requires RowsAreRuns(obs + [o], runs + [NextRun(runs, obs, o)], Extended(chain, o))
    requires r < |Extended(chain, o)|
    ensures Extended(chain, o)[r].isFinal <==>
            exists i :: FinalIn(obs + [o], runs + [NextRun(runs, obs, o)], i, r)
  {
    var obs', runs', chain' := obs + [o], runs + [NextRun(runs, obs, o)], Extended(chain, o);
    assert chain'[r].isFinal <==> (r < |chain| && chain[r].isFinal) || (r + 1 == |chain'| && o.entry.isFinal);
    assert FinalIn(obs', runs', |obs|, r) <==> r + 1 == |chain'| && o.entry.isFinal;
    forall i | 0 <= i < |obs| ensures FinalIn(obs', runs', i, r) <==> FinalIn(obs, runs, i, r) {
      assert obs'[i] == obs[i] && runs'[i] == runs[i];
    }
    assert (exists i :: FinalIn(obs', runs', i, r)) <==>
           (exists i :: FinalIn(obs, runs, i, r)) || FinalIn(obs', runs', |obs|, r);
    assert r >= |chain| ==> forall i :: !FinalIn(obs, runs, i, r);
  }

  lemma {:induction false} CollapseIsRuns(obs: seq<Observation>)
    ensures RowsAreRuns(obs, Runs(obs), Collapse(obs))
    ensures RowsSummarize(obs, Runs(obs), Collapse(obs))
  {
    if obs != [] {
      var before := obs[..|obs| - 1];
      CollapseIsRuns(before);
      assert obs == before + [Last(obs)];
      RowsStep(before, Runs(before), Collapse(before), Last(obs));
      SummaryStep(before, Runs(before), Collapse(before), Last(obs));
    }
  }

  /** For every identity the chain is its log with consecutive equal hashes collapsed. */
  lemma ChainIsTheCollapsedLog(log: seq<Observation>, job: JobId, id: Identity)
    ensures RowsAreRuns(Seen(log, job, id), Runs(Seen(log, job, id)), ChainOf(log, job, id))
    ensures RowsSummarize(Seen(log, job, id), Runs(Seen(log, job, id)), ChainOf(log, job, id))
  {
    CollapseIsRuns(Seen(log, job, id));
  }

  // ----- the table

  predicate HasRow(log: seq<Observation>, k: VersionKey) {
    1 <= k.revision <= |ChainOf(log, k.job, k.identity)|
  }

  function RowOf(log: seq<Observation>, k: VersionKey): Version
    requires HasRow(log, k)
  {
    ChainOf(log, k.job, k.identity)[k.revision - 1]
  }

  /** Every key the log ever made current. */
  function TableKeys(log: seq<Observation>): set<VersionKey> {
    if log == [] then {}
    else
      var o := log[|log| - 1];
      TableKeys(log[..|log| - 1])
      + {VersionKey(o.job, o.entry.identity, |ChainOf(log, o.job, o.entry.identity)|)}
  }

  /** The rows of every chain, keyed by job, identity and revision. */
  function TableOf(log: seq<Observation>): VersionTable {
    map k | k in TableKeys(log) && HasRow(log, k) :: RowOf(log, k)
  }

  lemma {:induction false} SeenAppend(log: seq<Observation>, o: Observation, job: JobId, id: Identity)
    ensures Seen(log + [o], job, id) == Seen(log, job, id) + (if About(o, job, id) then [o] else [])
  {
    assert (log + [o])[..|log|] == log;
  }

  lemma ChainAppend(log: seq<Observation>, o: Observation, job: JobId, id: Identity)
    ensures ChainOf(log + [o], job, id) ==
            (if About(o, job, id) then Extended(ChainOf(log, job, id), o) else ChainOf(log, job, id))
  {
    SeenAppend(log, o, job, id);
    if About(o, job, id) {
      var obs := Seen(log, job, id) + [o];
      assert obs[..|obs| - 1] == Seen(log, job, id);
    } else {
      assert Seen(log, job, id) + [] == Seen(log, job, id);
    }
  }

  lemma {:induction false} KeysAreRows(log: seq<Observation>, k: VersionKey)
    requires HasRow(log, k)
    ensures k in TableKeys(log)
  {
    if log != [] {
      var before, o := log[..|log| - 1], Last(log);
      assert log == before + [o];
      ChainAppend(before, o, k.job, k.identity);
      assert TableKeys(log) == TableKeys(before)
        + {VersionKey(o.job, o.entry.identity, |ChainOf(log, o.job, o.entry.identity)|)};
      if HasRow(before, k) {
        KeysAreRows(before, k);
      } else {
        assert k == VersionKey(o.job, o.entry.identity, |ChainOf(log, o.job, o.entry.identity)|);
      }
    }
  }

  /** The table holds revision r of an identity exactly when its chain is that long. */
  lemma TableRow(log: seq<Observation>, k: VersionKey)
    ensures k in TableOf(log) <==> HasRow(log, k)
    ensures HasRow(log, k) ==> TableOf(log)[k] == RowOf(log, k)
  {
    if HasRow(log, k) {
      KeysAreRows(log, k);
    }
  }

  /** The row a SELECT ... AND is_current=1 finds. */
  predicate IsCurrentRow(versions: VersionTable, job: JobId, id: Identity, k: VersionKey) {
    k in versions && k.job == job && k.identity == id && versions[k].isCurrent
  }

  /** Exactly the last revision is current. */
  lemma CurrentRowIsLast(log: seq<Observation>, job: JobId, id: Identity, k: VersionKey)
    ensures IsCurrentRow(TableOf(log), job, id, k) <==>
            ChainOf(log, job, id) != [] && k == VersionKey(job, id, |ChainOf(log, job, id)|)
  {
    TableRow(log, k);
    ChainIsTheCollapsedLog(log, job, id);
  }

  /** What commit_page writes for one entry, given the current row it found. */
  function Observed(versions: VersionTable, current: Option<VersionKey>, o: Observation): VersionTable
    requires current.Some? ==> current.value in versions
  {
    match current
    case None => versions[VersionKey(o.job, o.entry.identity, 1) := Fresh(o)]
    case Some(k) =>
      if versions[k].hash == o.entry.hash then
        if o.entry.isFinal && !versions[k].isFinal then versions[k := versions[k].(isFinal := true)] else versions
      else
        versions[k := versions[k].(isCurrent := false)]
                [VersionKey(o.job, o.entry.identity, k.revision + 1) := Fresh(o)]
  }

  function LastKey(job: JobId, id: Identity, chain: seq<Version>): Option<VersionKey> {
    if chain == [] then None else Some(VersionKey(job, id, |chain|))
  }

  function CurrentKey(log: seq<Observation>, job: JobId, id: Identity): Option<VersionKey> {
    LastKey(job, id, ChainOf(log, job, id))
  }

  lemma CurrentKeyIsThere(log: seq<Observation>, job: JobId, id: Identity)
    ensures CurrentKey(log, job, id).Some? ==>
              && CurrentKey(log, job, id).value in TableOf(log)
              && TableOf(log)[CurrentKey(log, job, id).value] == Last(ChainOf(log, job, id))
  {
    var chain := ChainOf(log, job, id);
    if chain != [] {
      TableRow(log, VersionKey(job, id, |chain|));
    }
  }

  /** The rows of one identity are its chain. */
  ghost predicate Holds(table: VersionTable, job: JobId, id: Identity, chain: seq<Version>) {
    && (forall r: int :: VersionKey(job, id, r) in table <==> 1 <= r <= |chain|)
    && (forall r: int | VersionKey(job, id, r) in table :: table[VersionKey(job, id, r)] == chain[r - 1])
  }

  lemma HoldsStep(table: VersionTable, chain: seq<Version>, o: Observation)
    requires Holds(table, o.job, o.entry.identity, chain)
    ensures Holds(Observed(table, LastKey(o.job, o.entry.identity, chain), o), o.job, o.entry.identity, Extended(chain, o))
  {
    var job, id := o.job, o.entry.identity;
    var after, chain' := Observed(table, LastKey(job, id, chain), o), Extended(chain, o);
    forall r: int
      ensures VersionKey(job, id, r) in after <==> 1 <= r <= |chain'|
      ensures VersionKey(job, id, r) in after ==> after[VersionKey(job, id, r)] == chain'[r - 1]
    {
      var k := VersionKey(job, id, r);
      assert k in table <==> 1 <= r <= |chain|;
    }
  }

  lemma HoldsElsewhere(table: VersionTable, chain: seq<Version>, o: Observation, job: JobId, id: Identity, other: seq<Version>)
    requires Holds(table, o.job, o.entry.identity, chain) && Holds(table, job, id, other) && !About(o, job, id)
    ensures Holds(Observed(table, LastKey(o.job, o.entry.identity, chain), o), job, id, other)
  {
  }

  lemma TableHolds(log: seq<Observation>, job: JobId, id: Identity)
    ensures Holds(TableOf(log), job, id, ChainOf(log, job, id))
  {
    HoldsByRows(log, TableOf(log), job, id, ChainOf(log, job, id));
  }

  lemma HoldsByRows(log: seq<Observation>, table: VersionTable, job: JobId, id: Identity, chain: seq<Version>)
    requires table == TableOf(log) && chain == ChainOf(log, job, id)
    ensures Holds(table, job, id, chain)
  {
    forall r: int
      ensures VersionKey(job, id, r) in table <==> 1 <= r <= |chain|
      ensures VersionKey(job, id, r) in table ==> table[VersionKey(job, id, r)] == chain[r - 1]
    {
      TableRow(log, VersionKey(job, id, r));
    }
  }

  /** A table is determined by its chains. */
  lemma SameChains(a: VersionTable, b: VersionTable, log: seq<Observation>)
    requires forall job, id :: Holds(a, job, id, ChainOf(log, job, id)) && Holds(b, job, id, ChainOf(log, job, id))
    ensures a == b
  {
    forall k: VersionKey
      ensures k in a <==> k in b
      ensures k in a ==> k in b && a[k] == b[k]
    {
      assert Holds(a, k.job, k.identity, ChainOf(log, k.job, k.identity));
      assert k == VersionKey(k.job, k.identity, k.revision);
    }
  }

  /** The table update refines the log: one entry at a time, the table stays the compressed log. */
  lemma TableStep(log: seq<Observation>, o: Observation)
    ensures CurrentKey(log, o.job, o.entry.identity).Some? ==>
              CurrentKey(log, o.job, o.entry.identity).value in TableOf(log)
    ensures TableOf(log + [o]) == Observed(TableOf(log), CurrentKey(log, o.job, o.entry.identity), o)
  {
    CurrentKeyIsThere(log, o.job, o.entry.identity);
    var written := Observed(TableOf(log), CurrentKey(log, o.job, o.entry.identity), o);
    TableHolds(log, o.job, o.entry.identity);
    forall job, id
      ensures Holds(TableOf(log + [o]), job, id, ChainOf(log + [o], job, id))
      ensures Holds(written, job, id, ChainOf(log + [o], job, id))
    {
      TableHolds(log + [o], job, id);
      TableHolds(log, job, id);
      ChainAppend(log, o, job, id);
      if About(o, job, id) {
        HoldsStep(TableOf(log), ChainOf(log, job, id), o);
      } else {
        HoldsElsewhere(TableOf(log), ChainOf(log, o.job, o.entry.identity), o, job, id, ChainOf(log, job, id));
      }
    }
    SameChains(TableOf(log + [o]), written, log + [o]);
  }

  // ----- counting

  ghost function Heads(log: seq<Observation>): set<(JobId, Identity)> {
    set i | 0 <= i < |log| :: (log[i].job, log[i].entry.identity)
  }

  /** Whether an observation makes the commit count a revision. */
  predicate Revises(log: seq<Observation>, o: Observation) {
    var chain := ChainOf(log, o.job, o.entry.identity);
    chain != [] && Last(chain).hash != o.entry.hash
  }

  /** The revisions_detected metric as a function of the log. */
  function RevisionCount(log: seq<Observation>): nat {
    if log == [] then 0
    else RevisionCount(log[..|log| - 1]) + (if Revises(log[..|log| - 1], Last(log)) then 1 else 0)
  }

  lemma RevisionCountAppend(log: seq<Observation>, o: Observation)
    ensures RevisionCount(log + [o]) == RevisionCount(log) + (if Revises(log, o) then 1 else 0)
  {
    assert (log + [o])[..|log|] == log;
  }

  /** Version rows = identities + revisions detected. */
  lemma {:induction false} RowsAreCounted(log: seq<Observation>)
    ensures |TableOf(log)| == |Heads(log)| + RevisionCount(log)
  {
    if log == [] {
      assert TableKeys(log) == {} && TableOf(log) == map[] && Heads(log) == {};
    } else {
      var before, o := log[..|log| - 1], Last(log);
      assert log == before + [o];
      RowsAreCounted(before);
      CountStep(before, o);
    }
  }

  lemma CountStep(log: seq<Observation>, o: Observation)
    ensures |TableOf(log + [o])| - |TableOf(log)|
            == |Heads(log + [o])| - |Heads(log)| + RevisionCount(log + [o]) - RevisionCount(log)
  {
    var chain := ChainOf(log, o.job, o.entry.identity);
    RevisionCountAppend(log, o);
    TableStep(log, o);
    TableHolds(log, o.job, o.entry.identity);
    ObservedCount(TableOf(log), chain, o);
    HeadCount(log, o);
  }

  lemma ObservedCount(table: VersionTable, chain: seq<Version>, o: Observation)
    requires Holds(table, o.job, o.entry.identity, chain)
    ensures |Observed(table, LastKey(o.job, o.entry.identity, chain), o)|
            == |table| + (if chain != [] && Last(chain).hash == o.entry.hash then 0 else 1)
  {
    var key := VersionKey(o.job, o.entry.identity, |chain| + 1);
    assert key !in table;
    if chain == [] {
      OneNewKey(table, table, key, Fresh(o));
    } else {
      var k := VersionKey(o.job, o.entry.identity, |chain|);
      assert k in table && table[k].hash == Last(chain).hash;
      var closed := table[k := table[k].(isCurrent := false)];
      assert closed.Keys == table.Keys;
      OneNewKey(table, closed, key, Fresh(o));
      assert table[k := table[k].(isFinal := true)].Keys == table.Keys;
      SameKeysSameSize(table, table[k := table[k].(isFinal := true)]);
    }
  }

  lemma SameKeysSameSize(a: VersionTable, b: VersionTable)
    requires a.Keys == b.Keys
    ensures |a| == |b|
  {
    assert |a| == |a.Keys| && |b| == |b.Keys|;
  }

  lemma OneNewKey(before: VersionTable, closed: VersionTable, key: VersionKey, row: Version)
    requires closed.Keys == before.Keys && key !in before
    ensures |closed[key := row]| == |before| + 1
  {
    assert closed[key := row].Keys == before.Keys + {key};
    assert |closed[key := row]| == |closed[key := row].Keys| && |before| == |before.Keys|;
  }

  lemma HeadCount(log: seq<Observation>, o: Observation)
    ensures |Heads(log + [o])|
            == |Heads(log)| + (if ChainOf(log, o.job, o.entry.identity) == [] then 1 else 0)
  {
    assert Heads(log + [o]) == Heads(log) + {(o.job, o.entry.identity)} by {
      assert forall i | 0 <= i < |log| :: (log + [o])[i] == log[i];
      assert (log + [o])[|log|] == o;
    }
    HeadSeen(log, o.job, o.entry.identity);
  }

  lemma {:induction false} HeadSeen(log: seq<Observation>, job: JobId, id: Identity)
    ensures (job, id) in Heads(log) <==> Seen(log, job, id) != []
  {
    if log != [] {
      var before := log[..|log| - 1];
      HeadSeen(before, job, id);
      assert log == before + [Last(log)];
      assert Heads(log) == Heads(before) + {(Last(log).job, Last(log).entry.identity)};
    }
  }

  // ----- a page

  /** The observations one page adds, line by line. */
  function PageObservations(page: PageId, job: JobId, entries: seq<Entry>): seq<Observation> {
    seq(|entries|, i requires 0 <= i < |entries| => Observation(page, i, job, entries[i]))
  }

  /** No identity appears on the page with two different hashes. */
  predicate Agree(entries: seq<Entry>) {
    forall i, j | 0 <= i < |entries| && 0 <= j < |entries| && entries[i].identity == entries[j].identity ::
      entries[i].hash == entries[j].hash
  }

  /** After its page, an entry that no later line contradicts is what its chain ends with. */
  ghost predicate Settled(log: seq<Observation>, o: Observation) {
    var chain := ChainOf(log, o.job, o.entry.identity);
    chain != [] && Last(chain).hash == o.entry.hash && (o.entry.isFinal ==> Last(chain).isFinal)
  }

  lemma SettledStep(log: seq<Observation>, o: Observation, next: Observation)
    requires Settled(log, o) && (About(next, o.job, o.entry.identity) ==> next.entry.hash == o.entry.hash)
    ensures Settled(log + [next], o)
  {
    ChainAppend(log, next, o.job, o.entry.identity);
  }

  lemma SettledAtOnce(log: seq<Observation>, o: Observation)
    ensures Settled(log + [o], o)
  {
    ChainAppend(log, o, o.job, o.entry.identity);
  }

  lemma {:induction false} SettledByPage(log: seq<Observation>, obs: seq<Observation>, i: nat)
    requires i < |obs|
    requires forall j | 0 <= j < |obs| && About(obs[j], obs[i].job, obs[i].entry.identity) ::
               obs[j].entry.hash == obs[i].entry.hash
    ensures Settled(log + obs, obs[i])
  {
    var n := |obs| - 1;
    var before, o := obs[..n], obs[n];
    assert log + obs == (log + before) + [o];
    if i == n {
      SettledAtOnce(log + before, o);
    } else {
      assert before[i] == obs[i];
      SettledByPage(log, before, i);
      SettledStep(log + before, obs[i], o);
    }
  }

  /** Observing what is already settled changes no chain. */
  lemma {:induction false} SettledAddsNothing(log: seq<Observation>, again: seq<Observation>, job: JobId, id: Identity)
    requires forall i | 0 <= i < |again| :: Settled(log, again[i])
    ensures ChainOf(log + again, job, id) == ChainOf(log, job, id)
  {
    if again == [] {
      assert log + again == log;
    } else {
      var before, o := again[..|again| - 1], Last(again);
      SettledAddsNothing(log, before, job, id);
      assert log + again == (log + before) + [o];
      ChainAppend(log + before, o, job, id);
      assert Settled(log, again[|again| - 1]);
    }
  }

  /** A chain that did not grow saw nothing but its last hash. */
  lemma {:induction false} NoGrowth(log: seq<Observation>, more: seq<Observation>, job: JobId, id: Identity, i: nat)
    requires i < |more| && About(more[i], job, id)
    ensures |ChainOf(log + more, job, id)| >= |ChainOf(log, job, id)|
    ensures |ChainOf(log + more, job, id)| == |ChainOf(log, job, id)| ==>
              && ChainOf(log, job, id) != []
              && more[i].entry.hash == Last(ChainOf(log, job, id)).hash == Last(ChainOf(log + more, job, id)).hash
  {
    var before, o := more[..|more| - 1], Last(more);
    assert log + more == (log + before) + [o];
    ChainsGrow(log, before, job, id);
    if i < |before| {
      NoGrowth(log, before, job, id, i);
    }
    GrowthStep(log + before, o, job, id);
  }

  /** A chain grows or keeps its last hash; a hash that is new to it makes it grow. */
  lemma GrowthStep(log: seq<Observation>, o: Observation, job: JobId, id: Identity)
    ensures |ChainOf(log + [o], job, id)| >= |ChainOf(log, job, id)|
    ensures |ChainOf(log + [o], job, id)| == |ChainOf(log, job, id)| != 0 ==>
              && Last(ChainOf(log + [o], job, id)).hash == Last(ChainOf(log, job, id)).hash
              && (About(o, job, id) ==> o.entry.hash == Last(ChainOf(log, job, id)).hash)
    ensures About(o, job, id) ==> ChainOf(log + [o], job, id) != []
  {
    ChainAppend(log, o, job, id);
  }

  lemma {:induction false} ChainsGrow(log: seq<Observation>, more: seq<Observation>, job: JobId, id: Identity)
    ensures |ChainOf(log + more, job, id)| >= |ChainOf(log, job, id)|
    ensures |ChainOf(log + more, job, id)| == |ChainOf(log, job, id)| != 0 ==>
              Last(ChainOf(log + more, job, id)).hash == Last(ChainOf(log, job, id)).hash
  {
    if more == [] {
      assert log + more == log;
    } else {
      var before, o := more[..|more| - 1], Last(more);
      ChainsGrow(log, before, job, id);
      assert log + more == (log + before) + [o];
      GrowthStep(log + before, o, job, id);
    }
  }

  lemma SameTableSameLength(a: seq<Observation>, b: seq<Observation>, job: JobId, id: Identity)
    requires TableOf(a) == TableOf(b)
    ensures |ChainOf(a, job, id)| == |ChainOf(b, job, id)|
  {
    TableHolds(a, job, id);
    TableHolds(b, job, id);
    var m, n := |ChainOf(a, job, id)|, |ChainOf(b, job, id)|;
    assert VersionKey(job, id, m) in TableOf(a) <==> m >= 1;
    assert VersionKey(job, id, m) in TableOf(b) <==> 1 <= m <= n;
    assert VersionKey(job, id, n) in TableOf(b) <==> n >= 1;
    assert VersionKey(job, id, n) in TableOf(a) <==> 1 <= n <= m;
  }

  /** Committing the same page twice is idempotent exactly when the page never contradicts itself. */
  lemma RecommitExact(log: seq<Observation>, page: PageId, again: PageId, job: JobId, entries: seq<Entry>)
    ensures TableOf(log + PageObservations(page, job, entries) + PageObservations(again, job, entries))
            == TableOf(log + PageObservations(page, job, entries))
            <==> Agree(entries)
  {
    var first, second := PageObservations(page, job, entries), PageObservations(again, job, entries);
    if Agree(entries) {
      RecommitKeeps(log, first, second);
    }
    if TableOf(log + first + second) == TableOf(log + first) {
      forall i, j | 0 <= i < |entries| && 0 <= j < |entries| && entries[i].identity == entries[j].identity
        ensures entries[i].hash == entries[j].hash
      {
        SameTableSameLength(log + first + second, log + first, job, entries[i].identity);
        assert second[i].entry == entries[i] && second[j].entry == entries[j];
        NoGrowth(log + first, second, job, entries[i].identity, i);
        NoGrowth(log + first, second, job, entries[i].identity, j);
      }
    }
  }

  lemma RecommitKeeps(log: seq<Observation>, first: seq<Observation>, second: seq<Observation>)
    requires |first| == |second|
    requires forall i | 0 <= i < |first| :: first[i].job == second[i].job && first[i].entry == second[i].entry
    requires forall i, j | 0 <= i < |first| && 0 <= j < |first| && About(first[j], first[i].job, first[i].entry.identity) ::
               first[j].entry.hash == first[i].entry.hash
    ensures TableOf(log + first + second) == TableOf(log + first)
  {
    forall i | 0 <= i < |second| ensures Settled(log + first, second[i]) {
      SettledByPage(log, first, i);
      assert Settled(log + first, first[i]);
    }
    forall job, id
      ensures Holds(TableOf(log + first + second), job, id, ChainOf(log + first, job, id))
      ensures Holds(TableOf(log + first), job, id, ChainOf(log + first, job, id))
    {
      SettledAddsNothing(log + first, second, job, id);
      TableHolds(log + first + second, job, id);
      TableHolds(log + first, job, id);
    }
    SameChains(TableOf(log + first + second), TableOf(log + first), log + first);
  }

  // ----- the event times a page touches

  /** The event times of a job's current rows, the series the gap index describes. */
  function CurrentTimes(versions: VersionTable, job: JobId): set<Time> {
    set k | k in versions && k.job == job && versions[k].isCurrent && versions[k].time.Some? :: versions[k].time.value
  }

  function TimeSet(t: Option<Time>): set<Time> {
    if t.Some? then {t.value} else {}
  }

  function CurrentTime(log: seq<Observation>, job: JobId, id: Identity): Option<Time> {
    var chain := ChainOf(log, job, id);
    if chain == [] then None else Last(chain).time
  }

  function EntryTimes(obs: seq<Observation>): set<Time> {
    set i | 0 <= i < |obs| && obs[i].entry.time.Some? :: obs[i].entry.time.value
  }

  /** The times of the current rows that a page's entries met while it was applied. */
  function MetTimes(log: seq<Observation>, obs: seq<Observation>): set<Time> {
    if obs == [] then {}
    else
      var before, o := obs[..|obs| - 1], obs[|obs| - 1];
      MetTimes(log, before) + TimeSet(CurrentTime(log + before, o.job, o.entry.identity))
  }

  function AffectedTimes(log: seq<Observation>, obs: seq<Observation>): set<Time> {
    EntryTimes(obs) + MetTimes(log, obs)
  }

  lemma CurrentTimesAre(log: seq<Observation>, job: JobId, t: Time)
    ensures t in CurrentTimes(TableOf(log), job) <==> exists id :: CurrentTime(log, job, id) == Some(t)
  {
    if t in CurrentTimes(TableOf(log), job) {
      var k :| k in TableOf(log) && k.job == job && TableOf(log)[k].isCurrent && TableOf(log)[k].time == Some(t);
      CurrentRowIsLast(log, job, k.identity, k);
      CurrentKeyIsThere(log, job, k.identity);
      assert CurrentTime(log, job, k.identity) == Some(t);
    }
    if id :| CurrentTime(log, job, id) == Some(t) {
      CurrentKeyIsThere(log, job, id);
      var k := CurrentKey(log, job, id).value;
      CurrentRowIsLast(log, job, id, k);
      assert k in TableOf(log) && k.job == job && TableOf(log)[k].isCurrent && TableOf(log)[k].time == Some(t);
    }
  }

  lemma CurrentTimeStep(log: seq<Observation>, o: Observation, job: JobId, id: Identity)
    ensures CurrentTime(log + [o], job, id) == CurrentTime(log, job, id)
            || (About(o, job, id) && CurrentTime(log + [o], job, id) == o.entry.time)
  {
    ChainAppend(log, o, job, id);
  }

  /** The times at which one observation may change the series of a job. */
  function TouchedTimes(log: seq<Observation>, o: Observation, job: JobId): set<Time> {
    if o.job == job then TimeSet(o.entry.time) + TimeSet(CurrentTime(log, o.job, o.entry.identity)) else {}
  }

  /** One observation changes the series only at its own time and at the time it replaces. */
  lemma TimesStep(log: seq<Observation>, o: Observation, job: JobId)
    ensures Covers(TouchedTimes(log, o, job), CurrentTimes(TableOf(log), job), CurrentTimes(TableOf(log + [o]), job))
  {
    var before, after := CurrentTimes(TableOf(log), job), CurrentTimes(TableOf(log + [o]), job);
    forall x: Time | (x in before) != (x in after) ensures x in TouchedTimes(log, o, job) {
      CurrentTimesAre(log, job, x);
      CurrentTimesAre(log + [o], job, x);
      TimeMoved(log, o, job, x);
    }
  }

  lemma TimeMoved(log: seq<Observation>, o: Observation, job: JobId, x: Time)
    requires (exists id :: CurrentTime(log, job, id) == Some(x)) != (exists id :: CurrentTime(log + [o], job, id) == Some(x))
    ensures x in TouchedTimes(log, o, job)
  {
    if id :| CurrentTime(log, job, id) == Some(x) {
      assert CurrentTime(log + [o], job, id) != Some(x);
      CurrentTimeStep(log, o, job, id);
    } else {
      var id :| CurrentTime(log + [o], job, id) == Some(x);
      assert CurrentTime(log, job, id) != Some(x);
      CurrentTimeStep(log, o, job, id);
    }
  }

  /** What a page hands to the gap index covers every change it makes to the series. */
  lemma {:induction false} PageTimesAreCovered(log: seq<Observation>, obs: seq<Observation>, job: JobId)
    requires forall i | 0 <= i < |obs| :: obs[i].job == job
    ensures Covers(AffectedTimes(log, obs), CurrentTimes(TableOf(log), job), CurrentTimes(TableOf(log + obs), job))
  {
    if obs == [] {
      assert log + obs == log;
    } else {
      var before, o := obs[..|obs| - 1], Last(obs);
      PageTimesAreCovered(log, before, job);
      TimesStep(log + before, o, job);
      assert log + obs == (log + before) + [o];
      assert AffectedTimes(log, before) <= AffectedTimes(log, obs) by {
        assert forall i | 0 <= i < |before| :: before[i] == obs[i];
      }
      assert TimeSet(o.entry.time) <= EntryTimes(obs) by {
        assert obs[|obs| - 1] == o;
      }
    }
  }

  /** Other jobs' series do not move. */
  lemma {:induction false} OtherTimesKept(log: seq<Observation>, obs: seq<Observation>, job: JobId)
    requires forall i | 0 <= i < |obs| :: obs[i].job != job
    ensures CurrentTimes(TableOf(log + obs), job) == CurrentTimes(TableOf(log), job)
  {
    if obs == [] {
      assert log + obs == log;
    } else {
      var before, o := obs[..|obs| - 1], Last(obs);
      OtherTimesKept(log, before, job);
      TimesStep(log + before, o, job);
      assert log + obs == (log + before) + [o];
      assert forall x: Time :: x in CurrentTimes(TableOf(log + obs), job) <==> x in CurrentTimes(TableOf(log), job);
    }
  }
}
