/**
 * The evidence files behind the database (mining/store.py: _atomic_bytes,
 * commit_page, recover_orphans, list_records, export_records): files first, then
 * the transaction, and a recovery that runs under the single-writer lock.
 */
module Evidence {
  import opened Tables
  import opened Collections
  import opened Revisions

  // ----- one JSON value per line

  /** What json.dumps guarantees of a record's text: control characters are escaped. */
  predicate OneLine(text: string) {
    '\n' !in text
  }

  /** The content of a page's .jsonl file. */
  function RecordsText(entries: seq<Entry>): string {
    if entries == [] then "" else entries[0].record + "\n" + RecordsText(entries[1..])
  }

  /** readline: up to and including the next newline. */
  function FirstLine(text: string): string {
    if text == "" then ""
    else if text[0] == '\n' then "\n"
    else [text[0]] + FirstLine(text[1..])
  }

  lemma {:induction false} FirstLineFits(text: string)
    ensures |FirstLine(text)| <= |text| && FirstLine(text) == text[..|FirstLine(text)|]
    ensures text != "" ==> FirstLine(text) != ""
  {
    if text != "" && text[0] != '\n' {
      FirstLineFits(text[1..]);
    }
  }

  /** The n-th line of a text, counted from 0; empty past the end. */
  function LineAt(text: string, n: nat): string {
    FirstLineFits(text);
    if n == 0 then FirstLine(text) else LineAt(text[|FirstLine(text)|..], n - 1)
  }

  /** Reading forward line by line, as list_records and export_records do. */
  method ReadLine(text: string, n: nat) returns (line: string)
    ensures line == LineAt(text, n)
  {
    hide FirstLine;
    var rest := text;
    for i := 0 to n
      invariant LineAt(rest, n - i) == LineAt(text, n)
    {
      FirstLineFits(rest);
      assert LineAt(rest, n - i) == LineAt(rest[|FirstLine(rest)|..], n - i - 1);
      rest := rest[|FirstLine(rest)|..];
    }
    line := FirstLine(rest);
  }

  lemma {:induction false} FirstLineOf(record: string, rest: string)
    requires OneLine(record)
    ensures FirstLine(record + "\n" + rest) == record + "\n"
  {
    var text := record + "\n" + rest;
    if record != "" {
      assert text[1..] == record[1..] + "\n" + rest;
      FirstLineOf(record[1..], rest);
    }
  }

  /** A line number reads back exactly the record that was written there. */
  lemma {:induction false} LineReadsBack(entries: seq<Entry>, n: nat)
    requires n < |entries| && forall i | 0 <= i < |entries| :: OneLine(entries[i].record)
    ensures LineAt(RecordsText(entries), n) == entries[n].record + "\n"
    decreases n
  {
    var text, rest := RecordsText(entries), RecordsText(entries[1..]);
    FirstLineOf(entries[0].record, rest);
    FirstLineFits(text);
    assert text[|FirstLine(text)|..] == rest;
    if n > 0 {
      LineReadsBack(entries[1..], n - 1);
    }
  }

  /** After the last record there is nothing more to read. */
  lemma {:induction false} NothingAfterTheRecords(entries: seq<Entry>)
    requires forall i | 0 <= i < |entries| :: OneLine(entries[i].record)
    ensures LineAt(RecordsText(entries), |entries|) == ""
  {
    if entries != [] {
      var text, rest := RecordsText(entries), RecordsText(entries[1..]);
      FirstLineOf(entries[0].record, rest);
      assert text[|FirstLine(text)|..] == rest;
      NothingAfterTheRecords(entries[1..]);
    }
  }

  // ----- files

  datatype Path = Raw(page: PageId) | Records(page: PageId) | Temp(name: nat)

  type Disk = map<Path, string>

  /** A committed page with what its two files hold. */
  datatype PageFiles = PageFiles(id: PageId, job: JobId, raw: string, entries: seq<Entry>)

  function Referenced(pages: seq<PageFiles>): set<Path> {
    (set i | 0 <= i < |pages| :: Raw(pages[i].id)) + (set i | 0 <= i < |pages| :: Records(pages[i].id))
  }

  /** The live file tree and the orphan directory. */
  class EvidenceRoot {
    var files: Disk
    var orphaned: seq<(Path, string)>

    /** _atomic_bytes: a temporary file, then a rename over the target. */
    method WriteAtomically(target: Path, content: string, temporary: nat)
      requires !target.Temp? && Temp(temporary) !in files
      modifies this`files
      ensures files == old(files)[target := content]
    {
      files := files[Temp(temporary) := content];
      var renamed := files[target := files[Temp(temporary)]];
      files := renamed - {Temp(temporary)};
    }

    /** shutil.move of one file into the orphan directory. */
    method MoveAway(p: Path)
      requires p in files
      modifies this
      ensures files == old(files) - {p} && orphaned == old(orphaned) + [(p, old(files)[p])]
    {
      orphaned := orphaned + [(p, files[p])];
      files := files - {p};
    }

    /** recover_orphans: every unreferenced file is moved away, every referenced one stays as it is. */
    method RecoverOrphans(referenced: set<Path>) returns (recovered: nat)
      modifies this
      ensures files == Kept(old(files), referenced)
      ensures recovered == |old(files).Keys - referenced|
      ensures MovedTo(old(orphaned), orphaned, old(files), old(files).Keys - referenced)
    {
      hide MovedTo;
      NothingMoved(orphaned, files);
      var strays := files.Keys - referenced;
      var moved: set<Path> := {};
      recovered := 0;
      while moved != strays
        invariant moved <= strays && recovered == |moved|
        invariant files == old(files) - moved
        invariant MovedTo(old(orphaned), orphaned, old(files), moved)
        decreases |strays| - |moved|
      {
        var p := PickOne(strays - moved);
        MoveOne(old(orphaned), orphaned, old(files), moved, p);
        FewerLeft(moved, strays, p);
        MoveAway(p);
        moved := moved + {p};
        recovered := recovered + 1;
      }
    }
  }

  lemma FewerLeft<T>(moved: set<T>, all: set<T>, p: T)
    requires moved <= all && p in all && p !in moved
    ensures |moved + {p}| == |moved| + 1 && |moved| < |all|
  {
    SubsetSize(moved + {p}, all);
  }

  /** The orphan directory gained exactly the given files, contents included. */
  ghost predicate MovedTo(before: seq<(Path, string)>, after: seq<(Path, string)>, files: Disk, moved: set<Path>)
    requires moved <= files.Keys
  {
    && before <= after && |after| == |before| + |moved|
    && (forall p | p in moved :: (p, files[p]) in after)
    && (forall i | |before| <= i < |after| :: after[i].0 in moved && after[i].1 == files[after[i].0])
  }

  lemma NothingMoved(orphaned: seq<(Path, string)>, files: Disk)
    ensures MovedTo(orphaned, orphaned, files, {})
  {
  }

  lemma MoveOne(before: seq<(Path, string)>, after: seq<(Path, string)>, files: Disk, moved: set<Path>, p: Path)
    requires moved <= files.Keys && p in files && p !in moved && MovedTo(before, after, files, moved)
    ensures MovedTo(before, after + [(p, files[p])], files, moved + {p})
  {
    var longer := after + [(p, files[p])];
    assert longer[|after|] == (p, files[p]);
    forall q | q in moved ensures (q, files[q]) in longer {
      var i :| 0 <= i < |after| && after[i] == (q, files[q]);
      assert longer[i] == after[i];
    }
  }

  // ----- the commit protocol, with a crash possible after every step

  /** A page on its way to disk: its open temporary file with the bytes written so far, and the files in place. */
  datatype Progress =
    | Fresh
    | RawTemp(temp: nat, written: nat)
    | RawDone
    | RecordsTemp(temp: nat, written: nat)
    | FilesDone

  datatype Phase = Stopped | Recovering | Resting | Writing(page: PageFiles, progress: Progress)

  /** Files, the committed pages, their observations, and what the lock holder is doing. */
  datatype World = World(files: Disk, pages: seq<PageFiles>, observations: seq<Observation>, phase: Phase)

  datatype Move =
    | Acquire
    | MoveOrphan(path: Path)
    | FinishRecovery
    | StartPage(page: PageFiles)
    | OpenTemp(name: nat)
    | WriteChunk(count: nat)
    | Rename
    | CommitRow
    | Abandon
    | Crash(leftovers: Disk)

  predicate FreshPage(w: World, id: PageId) {
    && Raw(id) !in w.files && Records(id) !in w.files
    && forall i | 0 <= i < |w.pages| :: w.pages[i].id != id
  }

  predicate HasTemp(w: World) {
    && w.phase.Writing? && (w.phase.progress.RawTemp? || w.phase.progress.RecordsTemp?)
    && Temp(w.phase.progress.temp) in w.files
  }

  /** What the temporary file is meant to hold in the end. */
  function Content(page: PageFiles, g: Progress): string {
    if g.RawTemp? then page.raw else RecordsText(page.entries)
  }

  predicate Can(w: World, m: Move) {
    match m
    case Acquire => w.phase.Stopped?
    case MoveOrphan(p) => w.phase.Recovering? && p in w.files && p !in Referenced(w.pages)
    case FinishRecovery => w.phase.Recovering? && w.files.Keys <= Referenced(w.pages)
    case StartPage(page) =>
      w.phase.Resting? && FreshPage(w, page.id) && forall i | 0 <= i < |page.entries| :: OneLine(page.entries[i].record)
    case OpenTemp(name) =>
      w.phase.Writing? && (w.phase.progress.Fresh? || w.phase.progress.RawDone?) && Temp(name) !in w.files
    case WriteChunk(n) =>
      HasTemp(w) && w.phase.progress.written + n <= |Content(w.phase.page, w.phase.progress)|
    case Rename => HasTemp(w) && w.phase.progress.written == |Content(w.phase.page, w.phase.progress)|
    case CommitRow => w.phase.Writing? && w.phase.progress.FilesDone?
    case Abandon => w.phase.Writing?
    case Crash(_) => true
  }

  /** An exception unlinks the open temporary file; other files of the page stay behind. */
  function Abandoned(w: World): Disk
    requires w.phase.Writing?
  {
    if HasTemp(w) then w.files - {Temp(w.phase.progress.temp)} else w.files
  }

  /** A crash may leave anything in temporary files. */
  function Garbled(files: Disk, leftovers: Disk): Disk {
    map p | p in files :: if p.Temp? && p in leftovers then leftovers[p] else files[p]
  }

  /** The temporary file is written piece by piece, and what it holds is what the rename puts in place. */
  function Next(w: World, m: Move): World
    requires Can(w, m)
  {
    match m
    case Acquire => w.(phase := Recovering)
    case MoveOrphan(p) => w.(files := w.files - {p})
    case FinishRecovery => w.(phase := Resting)
    case StartPage(page) => w.(phase := Writing(page, Fresh))
    case OpenTemp(name) =>
      w.(files := w.files[Temp(name) := ""],
         phase := Writing(w.phase.page, if w.phase.progress.Fresh? then RawTemp(name, 0) else RecordsTemp(name, 0)))
    case WriteChunk(n) =>
      var page, g, t := w.phase.page, w.phase.progress, Temp(w.phase.progress.temp);
      w.(files := w.files[t := w.files[t] + Content(page, g)[g.written..g.written + n]],
         phase := Writing(page, g.(written := g.written + n)))
    case Rename =>
      var page, t := w.phase.page, Temp(w.phase.progress.temp);
      if w.phase.progress.RawTemp? then
        w.(files := (w.files - {t})[Raw(page.id) := w.files[t]], phase := Writing(page, RawDone))
      else
        w.(files := (w.files - {t})[Records(page.id) := w.files[t]], phase := Writing(page, FilesDone))
    case CommitRow =>
      var page := w.phase.page;
      w.(pages := w.pages + [page], observations := w.observations + PageObservations(page.id, page.job, page.entries),
         phase := Resting)
    case Abandon => w.(files := Abandoned(w), phase := Resting)
    case Crash(leftovers) => w.(files := Garbled(w.files, leftovers), phase := Stopped)
  }

  /** Both files of a page are there, with exactly what was committed. */
  predicate Whole(files: Disk, p: PageFiles) {
    && Raw(p.id) in files && files[Raw(p.id)] == p.raw
    && Records(p.id) in files && files[Records(p.id)] == RecordsText(p.entries)
    && forall i | 0 <= i < |p.entries| :: OneLine(p.entries[i].record)
  }

  ghost predicate AllWhole(w: World) {
    && (forall i | 0 <= i < |w.pages| :: Whole(w.files, w.pages[i]))
    && (forall i, j | 0 <= i < j < |w.pages| :: w.pages[i].id != w.pages[j].id)
  }

  /** What the page in flight has on disk so far. */
  ghost predicate FlightOk(w: World) {
    w.phase.Writing? ==>
      var page, g := w.phase.page, w.phase.progress;
      && (forall i | 0 <= i < |w.pages| :: w.pages[i].id != page.id)
      && (forall i | 0 <= i < |page.entries| :: OneLine(page.entries[i].record))
      && (g.RawTemp? || g.RecordsTemp? ==>
            && Temp(g.temp) in w.files && g.written <= |Content(page, g)|
            && w.files[Temp(g.temp)] == Content(page, g)[..g.written])
      && (!g.Fresh? && !g.RawTemp? ==> Raw(page.id) in w.files && w.files[Raw(page.id)] == page.raw)
      && (g.FilesDone? ==> Records(page.id) in w.files && w.files[Records(page.id)] == RecordsText(page.entries))
  }

  /** Every observation points at the line of a whole page that holds its record. */
  ghost predicate Addressed(w: World) {
    forall i | 0 <= i < |w.observations| :: Readable(w, w.observations[i])
  }

  ghost predicate Readable(w: World, o: Observation) {
    exists k :: 0 <= k < |w.pages| && Locates(w.pages[k], o)
  }

  predicate Locates(p: PageFiles, o: Observation) {
    p.id == o.page && o.line < |p.entries| && p.entries[o.line] == o.entry
  }

  ghost predicate Durable(w: World) {
    AllWhole(w) && FlightOk(w) && Addressed(w)
  }

  lemma WholeKept(before: Disk, after: Disk, p: PageFiles)
    requires Whole(before, p)
    requires Raw(p.id) in after && after[Raw(p.id)] == before[Raw(p.id)]
    requires Records(p.id) in after && after[Records(p.id)] == before[Records(p.id)]
    ensures Whole(after, p)
  {
  }

  lemma ReferencedAreWhole(w: World, i: nat)
    requires i < |w.pages|
    ensures Raw(w.pages[i].id) in Referenced(w.pages) && Records(w.pages[i].id) in Referenced(w.pages)
  {
  }

  lemma AllWholeNext(w: World, m: Move)
    requires Can(w, m) && Durable(w)
    ensures AllWhole(Next(w, m))
  {
    var after := Next(w, m);
    forall i | 0 <= i < |after.pages| ensures Whole(after.files, after.pages[i]) {
      if i < |w.pages| {
        assert after.pages[i] == w.pages[i];
        ReferencedAreWhole(w, i);
        WholeKept(w.files, after.files, w.pages[i]);
      }
    }
  }

  lemma AddressedNext(w: World, m: Move)
    requires Can(w, m) && Durable(w)
    ensures Addressed(Next(w, m))
  {
    var after := Next(w, m);
    forall i | 0 <= i < |after.observations| ensures Readable(after, after.observations[i]) {
      var o := after.observations[i];
      if i < |w.observations| {
        assert Readable(w, w.observations[i]);
        var k :| 0 <= k < |w.pages| && Locates(w.pages[k], o);
        assert after.pages[k] == w.pages[k];
      } else {
        assert Locates(after.pages[|w.pages|], o);
      }
    }
  }

  lemma DurableNext(w: World, m: Move)
    requires Can(w, m) && Durable(w)
    ensures Durable(Next(w, m))
  {
    AllWholeNext(w, m);
    AddressedNext(w, m);
    FlightNext(w, m);
  }

  /** What is on disk is what was written so far, so the rename puts the full content in place. */
  lemma FlightNext(w: World, m: Move)
    requires Can(w, m) && Durable(w)
    ensures FlightOk(Next(w, m))
  {
    if m.WriteChunk? {
      var page, g := w.phase.page, w.phase.progress;
      assert Content(page, g)[..g.written] + Content(page, g)[g.written..g.written + m.count]
          == Content(page, g)[..g.written + m.count];
    } else if m.Rename? {
      var page, g := w.phase.page, w.phase.progress;
      assert Content(page, g)[..g.written] == Content(page, g);
    }
  }

  /** The file a page writes next, and what it is to hold. */
  function Target(page: PageFiles, g: Progress): Path {
    if g.Fresh? then Raw(page.id) else Records(page.id)
  }

  function Wanted(page: PageFiles, g: Progress): string {
    if g.Fresh? then page.raw else RecordsText(page.entries)
  }

  /** _atomic_bytes of a whole file, the raw one and then the records, is these moves in a row. */
  lemma AtomicWriteIsMoves(w: World, name: nat, content: string)
    requires w.phase.Writing? && (w.phase.progress.Fresh? || w.phase.progress.RawDone?) && Temp(name) !in w.files
    requires content == Wanted(w.phase.page, w.phase.progress)
    ensures Runs(w, [OpenTemp(name), WriteChunk(|content|), Rename])
    ensures End(w, [OpenTemp(name), WriteChunk(|content|), Rename])
            == w.(files := w.files[Target(w.phase.page, w.phase.progress) := content],
                  phase := Writing(w.phase.page, if w.phase.progress.Fresh? then RawDone else FilesDone))
  {
    hide RecordsText;
    var moves := [OpenTemp(name), WriteChunk(|content|), Rename];
    assert moves[1..] == [WriteChunk(|content|), Rename] && moves[1..][1..] == [Rename] && [Rename][1..] == [];
    var begun := Next(w, moves[0]);
    var written := Next(begun, moves[1]);
    assert content[0..|content|] == content;
    assert written.files[Temp(name)] == content;
    var renamed := Next(written, Rename);
    assert End(renamed, []) == renamed && End(written, [Rename]) == renamed && End(begun, moves[1..]) == renamed;
    assert renamed.files == w.files[Target(w.phase.page, w.phase.progress) := content];
    assert Runs(renamed, []) && Runs(written, [Rename]) && Runs(begun, moves[1..]) && Runs(w, moves);
    assert End(w, moves) == renamed;
  }

  /** What recover_orphans leaves in the live tree. */
  function Kept(files: Disk, referenced: set<Path>): Disk {
    files - (files.Keys - referenced)
  }

  lemma OneOrphanLess(files: Disk, referenced: set<Path>, p: Path)
    requires p in files && p !in referenced
    ensures |files - {p}| < |files| && Kept(files - {p}, referenced) == Kept(files, referenced)
  {
    var rest := files - {p};
    assert files.Keys == rest.Keys + {p};
    assert |files| == |files.Keys| && |rest| == |rest.Keys|;
    assert Kept(rest, referenced).Keys == Kept(files, referenced).Keys;
  }

  /** recover_orphans is a sequence of these moves, after which the recovery is finished. */
  lemma {:induction false} RecoveryIsMoves(w: World) returns (moves: seq<Move>)
    requires w.phase.Recovering?
    ensures Runs(w, moves) && End(w, moves) == w.(files := Kept(w.files, Referenced(w.pages)))
    ensures Can(End(w, moves), FinishRecovery)
    decreases |w.files|
  {
    hide Referenced;
    if p :| p in w.files && p !in Referenced(w.pages) {
      OneOrphanLess(w.files, Referenced(w.pages), p);
      var next := Next(w, MoveOrphan(p));
      var rest := RecoveryIsMoves(next);
      moves := [MoveOrphan(p)] + rest;
      assert moves[1..] == rest;
    } else {
      moves := [];
      assert Kept(w.files, Referenced(w.pages)) == w.files;
    }
  }

  ghost predicate Runs(w: World, moves: seq<Move>)
    decreases |moves|
  {
    moves == [] || (Can(w, moves[0]) && Runs(Next(w, moves[0]), moves[1..]))
  }

  ghost function End(w: World, moves: seq<Move>): World
    requires Runs(w, moves)
    decreases |moves|
  {
    if moves == [] then w else End(Next(w, moves[0]), moves[1..])
  }

  /** Wherever a run crashes, every committed page keeps its whole evidence. */
  lemma {:induction false} EvidenceSurvivesEveryRun(w: World, moves: seq<Move>)
    requires Durable(w) && Runs(w, moves)
    ensures Durable(End(w, moves))
    decreases |moves|
  {
    if moves != [] {
      DurableNext(w, moves[0]);
      EvidenceSurvivesEveryRun(Next(w, moves[0]), moves[1..]);
    }
  }

  /** After a restart has recovered, a page is on disk and in the database, or in neither. */
  lemma WholePageOrNothing(w: World, id: PageId)
    requires Durable(w) && Can(w, FinishRecovery)
    ensures var t := Next(w, FinishRecovery);
            (exists i :: 0 <= i < |t.pages| && t.pages[i].id == id && Whole(t.files, t.pages[i]))
            || (Raw(id) !in t.files && Records(id) !in t.files && forall i | 0 <= i < |t.pages| :: t.pages[i].id != id)
  {
    var t := Next(w, FinishRecovery);
    if i :| 0 <= i < |t.pages| && t.pages[i].id == id {
      assert Whole(t.files, t.pages[i]);
    } else {
      assert Raw(id) !in Referenced(t.pages) && Records(id) !in Referenced(t.pages);
    }
  }

  // ----- version rows read back

  predicate Originates(v: Version, o: Observation) {
    v.page == o.page && v.line == o.line && v.hash == o.entry.hash && v.time == o.entry.time
  }

  lemma {:induction false} RowHasOrigin(obs: seq<Observation>, r: nat) returns (i: nat)
    requires r < |Collapse(obs)|
    ensures i < |obs| && Originates(Collapse(obs)[r], obs[i])
  {
    var before := obs[..|obs| - 1];
    if r < |Collapse(before)| {
      i := RowHasOrigin(before, r);
      assert before[i] == obs[i];
    } else {
      i := |obs| - 1;
    }
  }

  lemma {:induction false} SeenIsLogged(log: seq<Observation>, job: JobId, id: Identity, i: nat) returns (j: nat)
    requires i < |Seen(log, job, id)|
    ensures j < |log| && log[j] == Seen(log, job, id)[i] && About(log[j], job, id)
  {
    var before := log[..|log| - 1];
    if i < |Seen(before, job, id)| {
      j := SeenIsLogged(before, job, id, i);
      assert before[j] == log[j];
    } else {
      j := |log| - 1;
    }
  }

  /** Every observation's address reads back its record. */
  lemma ObservationReadsBack(w: World, o: Observation)
    requires AllWhole(w) && Readable(w, o)
    ensures Records(o.page) in w.files && LineAt(w.files[Records(o.page)], o.line) == o.entry.record + "\n"
  {
    var n :| 0 <= n < |w.pages| && Locates(w.pages[n], o);
    assert Whole(w.files, w.pages[n]);
    LineReadsBack(w.pages[n].entries, o.line);
  }

  /** A version row was written by an observation of its own identity. */
  lemma VersionHasOrigin(log: seq<Observation>, k: VersionKey) returns (j: nat)
    requires k in TableOf(log)
    ensures j < |log| && About(log[j], k.job, k.identity) && Originates(TableOf(log)[k], log[j])
  {
    TableRow(log, k);
    var i := RowHasOrigin(Seen(log, k.job, k.identity), k.revision - 1);
    j := SeenIsLogged(log, k.job, k.identity, i);
  }

  /** Observation j wrote the row, and the row's address reads back exactly its record. */
  ghost predicate ReadsBack(log: seq<Observation>, files: Disk, k: VersionKey, v: Version, j: nat) {
    && j < |log| && About(log[j], k.job, k.identity) && Originates(v, log[j])
    && Records(v.page) in files && LineAt(files[Records(v.page)], v.line) == log[j].entry.record + "\n"
  }

  /** The address of every version row reads back exactly the record the row was written from. */
  lemma VersionsReadBack(w: World, k: VersionKey)
    requires Durable(w) && k in TableOf(w.observations)
    ensures exists j :: ReadsBack(w.observations, w.files, k, TableOf(w.observations)[k], j)
  {
    var j := VersionHasOrigin(w.observations, k);
    ObservationReadsBack(w, w.observations[j]);
    assert ReadsBack(w.observations, w.files, k, TableOf(w.observations)[k], j);
  }

  // ----- why the lock is needed

  /** A second process recovering while a page is in flight takes its files; the commit then refers to nothing. */
  lemma WithoutTheLockEvidenceIsLost(w: World, p: Path)
    requires Durable(w) && w.phase.Writing? && w.phase.progress.FilesDone?
    requires p == Raw(w.phase.page.id) || p == Records(w.phase.page.id)
    ensures p in w.files && p !in Referenced(w.pages)
    ensures !AllWhole(Next(w.(files := w.files - {p}), CommitRow))
  {
    var after := Next(w.(files := w.files - {p}), CommitRow);
    assert after.pages[|w.pages|] == w.phase.page;
    assert !Whole(after.files, after.pages[|w.pages|]);
  }
}
