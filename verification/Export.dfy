/**
 * export_records (mining/store.py): the current rows of a job in the order of its
 * query, and the lines they address.
 */
module Export {
  import opened Options
  import opened Tables
  import opened Collections
  import opened Revisions
  import opened Evidence

  // ----- ORDER BY event_time_sort IS NULL, event_time_sort, identity_hash

  predicate TextLeq(a: string, b: string) {
    a == "" || (b != "" && (a[0] < b[0] || (a[0] == b[0] && TextLeq(a[1..], b[1..]))))
  }

  lemma {:induction false} TextLeqTotal(a: string, b: string)
    ensures TextLeq(a, b) || TextLeq(b, a)
  {
    if a != "" && b != "" && a[0] == b[0] {
      TextLeqTotal(a[1..], b[1..]);
    }
  }

  lemma {:induction false} TextLeqTransitive(a: string, b: string, c: string)
    requires TextLeq(a, b) && TextLeq(b, c)
    ensures TextLeq(a, c)
  {
    if a != "" && a[0] == b[0] && b[0] == c[0] {
      TextLeqTransitive(a[1..], b[1..], c[1..]);
    }
  }

  lemma {:induction false} TextLeqAntisymmetric(a: string, b: string)
    requires TextLeq(a, b) && TextLeq(b, a)
    ensures a == b
  {
    if a != "" {
      TextLeqAntisymmetric(a[1..], b[1..]);
      assert a == [a[0]] + a[1..] && b == [b[0]] + b[1..];
    }
  }

  /** Rows without an event time come last; equal times are ordered by identity. */
  predicate RowLeq(versions: VersionTable, a: VersionKey, b: VersionKey)
    requires a in versions && b in versions
  {
    match (versions[a].time, versions[b].time)
    case (None, None) => TextLeq(a.identity.hash, b.identity.hash)
    case (Some(_), None) => true
    case (None, Some(_)) => false
    case (Some(s), Some(t)) => s < t || (s == t && TextLeq(a.identity.hash, b.identity.hash))
  }

  lemma RowLeqTotal(versions: VersionTable, a: VersionKey, b: VersionKey)
    requires a in versions && b in versions
    ensures RowLeq(versions, a, b) || RowLeq(versions, b, a)
  {
    TextLeqTotal(a.identity.hash, b.identity.hash);
  }

  lemma RowLeqTransitive(versions: VersionTable, a: VersionKey, b: VersionKey, c: VersionKey)
    requires a in versions && b in versions && c in versions && RowLeq(versions, a, b) && RowLeq(versions, b, c)
    ensures RowLeq(versions, a, c)
  {
    if TextLeq(a.identity.hash, b.identity.hash) && TextLeq(b.identity.hash, c.identity.hash) {
      TextLeqTransitive(a.identity.hash, b.identity.hash, c.identity.hash);
    }
  }

  predicate Leads(versions: VersionTable, among: set<VersionKey>, first: VersionKey)
    requires among <= versions.Keys
  {
    first in among && forall k | k in among :: RowLeq(versions, first, k)
  }

  lemma {:induction false} SomeRowLeads(versions: VersionTable, among: set<VersionKey>)
    requires among != {} && among <= versions.Keys
    ensures exists k :: k in among && Leads(versions, among, k)
  {
    var x :| x in among;
    RowLeqTotal(versions, x, x);
    if among == {x} {
      assert Leads(versions, among, x);
    } else {
      var rest := among - {x};
      SomeRowLeads(versions, rest);
      var y :| y in rest && Leads(versions, rest, y);
      RowLeqTotal(versions, x, y);
      var first := if RowLeq(versions, x, y) then x else y;
      forall k | k in among ensures RowLeq(versions, first, k) {
        if k != x && first == x {
          RowLeqTransitive(versions, x, y, k);
        }
      }
      assert Leads(versions, among, first);
    }
  }

  // ----- the rows of the query

  function CurrentRows(versions: VersionTable, job: JobId): set<VersionKey> {
    set k | k in versions && k.job == job && versions[k].isCurrent
  }

  predicate InOrder(versions: VersionTable, rows: seq<VersionKey>) {
    && (forall i | 0 <= i < |rows| :: rows[i] in versions)
    && forall i, j | 0 <= i < j < |rows| :: RowLeq(versions, rows[i], rows[j])
  }

  /** Exactly the current rows of the job, each once, in order. */
  ghost predicate QueryOrder(versions: VersionTable, job: JobId, rows: seq<VersionKey>) {
    Distinct(rows) && InOrder(versions, rows) && forall k :: k in rows <==> k in CurrentRows(versions, job)
  }

  /** The order leaves no choice: two current rows of a job never tie. */
  lemma {:induction false} CurrentRowsNeverTie(log: seq<Observation>, job: JobId, a: VersionKey, b: VersionKey)
    requires a in CurrentRows(TableOf(log), job) && b in CurrentRows(TableOf(log), job)
    requires RowLeq(TableOf(log), a, b) && RowLeq(TableOf(log), b, a)
    ensures a == b
  {
    TextLeqAntisymmetric(a.identity.hash, b.identity.hash);
    CurrentRowIsLast(log, job, a.identity, a);
    CurrentRowIsLast(log, job, b.identity, b);
  }

  /** In the export, rows without an event time come last, times ascend, and equal times are ordered by identity. */
  lemma ExportOrder(versions: VersionTable, job: JobId, rows: seq<VersionKey>, i: nat, j: nat)
    requires QueryOrder(versions, job, rows) && i < j < |rows|
    ensures rows[i] in versions && rows[j] in versions
    ensures var s, t := versions[rows[i]].time, versions[rows[j]].time;
            && (s.None? ==> t.None?)
            && (s.Some? && t.Some? ==> s.value <= t.value)
            && (s == t ==> TextLeq(rows[i].identity.hash, rows[j].identity.hash))
  {
    assert RowLeq(versions, rows[i], rows[j]);
  }

  /** Texts are ordered by the first place at which they differ. */
  lemma {:induction false} FirstDifferenceDecides(a: string, b: string, k: nat)
    requires k < |a| && k < |b| && a[..k] == b[..k] && a[k] != b[k]
    ensures TextLeq(a, b) <==> a[k] < b[k]
  {
    if k > 0 {
      assert a[0] == a[..k][0] == b[..k][0] == b[0];
      assert a[1..][..k - 1] == a[..k][1..] && b[1..][..k - 1] == b[..k][1..];
      FirstDifferenceDecides(a[1..], b[1..], k - 1);
    }
  }

  method SelectRows(versions: VersionTable, job: JobId) returns (rows: seq<VersionKey>)
    ensures QueryOrder(versions, job, rows)
  {
    var rest := CurrentRows(versions, job);
    rows := [];
    while rest != {}
      invariant rest <= CurrentRows(versions, job)
      invariant Distinct(rows) && forall k :: k in rows <==> k in CurrentRows(versions, job) && k !in rest
      invariant InOrder(versions, rows)
      invariant forall i, k | 0 <= i < |rows| && k in rest :: RowLeq(versions, rows[i], k)
      decreases |rest|
    {
      SomeRowLeads(versions, rest);
      var k :| k in rest && Leads(versions, rest, k);
      rows := rows + [k];
      rest := rest - {k};
    }
  }

  // ----- the text

  /** The record a row was written from, as the committed page holds it. */
  ghost predicate Wrote(pages: seq<PageFiles>, v: Version, record: string) {
    exists n :: 0 <= n < |pages| && pages[n].id == v.page && v.line < |pages[n].entries| && pages[n].entries[v.line].record == record
  }

  /** The text is one line for each row: the record it was written from. */
  ghost predicate LinesOf(pages: seq<PageFiles>, versions: VersionTable, rows: seq<VersionKey>, text: string) {
    if rows == [] then text == ""
    else
      var last := rows[|rows| - 1];
      last in versions && exists before, record ::
        LinesOf(pages, versions, rows[..|rows| - 1], before) && Wrote(pages, versions[last], record) && text == before + record + "\n"
  }

  lemma RowLine(w: World, k: VersionKey) returns (record: string)
    requires Durable(w) && k in TableOf(w.observations)
    ensures var v := TableOf(w.observations)[k];
            && Wrote(w.pages, v, record) && Records(v.page) in w.files
            && LineAt(w.files[Records(v.page)], v.line) == record + "\n"
  {
    var j := VersionHasOrigin(w.observations, k);
    var o := w.observations[j];
    ObservationReadsBack(w, o);
    assert Readable(w, o);
    var n :| 0 <= n < |w.pages| && Locates(w.pages[n], o);
    record := o.entry.record;
    assert w.pages[n].entries[o.line].record == record;
  }

  /** The export holds the records of exactly the current rows of the job, a line each, in the order of the query. */
  method ExportRecords(files: Disk, versions: VersionTable, job: JobId, ghost w: World)
    returns (rows: seq<VersionKey>, output: string)
    requires Durable(w) && files == w.files && versions == TableOf(w.observations)
    ensures QueryOrder(versions, job, rows) && LinesOf(w.pages, versions, rows, output)
  {
    rows := SelectRows(versions, job);
    output := "";
    for i := 0 to |rows|
      invariant LinesOf(w.pages, versions, rows[..i], output)
    {
      assert rows[i] in rows;
      var v := versions[rows[i]];
      ghost var record := RowLine(w, rows[i]);
      var line := ReadLine(files[Records(v.page)], v.line);
      OneMoreLine(w.pages, versions, rows, i, output, record);
      output := output + line;
    }
    assert rows[..|rows|] == rows;
  }

  lemma OneMoreLine(pages: seq<PageFiles>, versions: VersionTable, rows: seq<VersionKey>, i: nat, text: string, record: string)
    requires i < |rows| && rows[i] in versions && LinesOf(pages, versions, rows[..i], text) && Wrote(pages, versions[rows[i]], record)
    ensures LinesOf(pages, versions, rows[..i + 1], text + (record + "\n"))
  {
    var more := rows[..i + 1];
    assert more[..|more| - 1] == rows[..i] && more[|more| - 1] == rows[i];
    assert text + record + "\n" == text + (record + "\n");
  }
}
