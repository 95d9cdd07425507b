/**
 The migration runner: it walks the sorted migration files, aborts on a changed file that the
 `schema_migrations` ledger already holds, executes the others and records each one after its
 SQL has run. The ledger survives a failed run; everything else is lost with it.
 */
module Migrations {
  import opened Options
  import opened Sequences

  datatype File = File(name: string, text: string)

  datatype Row = Row(version: string, filename: string, checksum: string)

  /** What the database was asked to do: run a file's SQL, or store its ledger row. */
  datatype Event = Executed(name: string, text: string) | Recorded(row: Row)

  /** Where, if anywhere, the environment breaks the run while it is busy with one file. */
  datatype Fault = NoFault | ReadFails | SqlFails | DiesBeforeRecord | DiesAfterRecord

  /** Why a run did not reach the next file. */
  datatype Stop = Unreadable | ChecksumMismatch | SqlError | NotRecorded | Interrupted

  /**
   What the runner is run with: the digest of a text, the collation of the ledger's keys as the
   text it compares them by, and whether a row fits the columns of the ledger.
   */
  datatype Setup = Setup(digest: string -> string, fold: string -> string, fits: Row -> bool)

  predicate IsDigit(c: char) {
    '0' <= c <= '9'
  }

  function LeadingDigits(name: string): (r: string)
    ensures r <= name && forall c <- r :: IsDigit(c)
    ensures |r| < |name| ==> !IsDigit(name[|r|])
  {
    if name != [] && IsDigit(name[0]) then [name[0]] + LeadingDigits(name[1..]) else []
  }

  /** The digits a file name starts with, or the whole name if it starts with none. */
  function Version(name: string): (r: string)
    ensures name != [] && '0' <= name[0] <= '9' ==>
      && r != [] && r <= name && (forall c <- r :: '0' <= c <= '9')
      && (|r| < |name| ==> !('0' <= name[|r|] <= '9'))
    ensures name == [] || !('0' <= name[0] <= '9') ==> r == name
  {
    if LeadingDigits(name) == [] then name else LeadingDigits(name)
  }

  function RowOf(file: File, setup: Setup): Row {
    Row(Version(file.name), file.name, setup.digest(file.text))
  }

  /** The row of a file name, the last one if there are several. */
  function Lookup(rows: seq<Row>, name: string): Option<Row> {
    if rows == [] then None
    else if rows[|rows| - 1].filename == name then Some(rows[|rows| - 1])
    else Lookup(rows[..|rows| - 1], name)
  }

  /** Equal under the primary key of the ledger or under its unique key on `version`. */
  predicate SameKey(a: Row, b: Row, setup: Setup) {
    setup.fold(a.filename) == setup.fold(b.filename) || setup.fold(a.version) == setup.fold(b.version)
  }

  ghost predicate UniqueKeys(rows: seq<Row>, setup: Setup) {
    forall i, j :: 0 <= i < j < |rows| ==> !SameKey(rows[i], rows[j], setup)
  }

  /** The INSERT of the row is refused. */
  predicate Refused(rows: seq<Row>, row: Row, setup: Setup) {
    !setup.fits(row) || exists r <- rows :: SameKey(r, row, setup)
  }

  // ----- one run, as a function of the ledger it finds

  /** `passed` counts the files the loop has left behind, `applied` those among them it executed. */
  datatype Progress = Progress(ledger: seq<Row>, events: seq<Event>, passed: nat, applied: nat, stop: Option<Stop>)

  function FaultAt(faults: seq<Fault>, k: nat): Fault {
    if k < |faults| then faults[k] else NoFault
  }

  /** How the visit to one file ends; `snapshot` is the ledger as read before the loop. */
  function Verdict(ledger: seq<Row>, snapshot: seq<Row>, file: File, fault: Fault, setup: Setup): Option<Stop> {
    if fault.ReadFails? then Some(Unreadable)
    else if Lookup(snapshot, file.name).Some? then
      if Unchanged(snapshot, file, setup) then None else Some(ChecksumMismatch)
    else if fault.SqlFails? then Some(SqlError)
    else if fault.DiesBeforeRecord? || Refused(ledger, RowOf(file, setup), setup) then Some(NotRecorded)
    else if fault.DiesAfterRecord? then Some(Interrupted)
    else None
  }

  /** The ledger holds this file's text, or does not know the file. */
  predicate Unchanged(snapshot: seq<Row>, file: File, setup: Setup) {
    var existing := Lookup(snapshot, file.name);
    existing.Some? ==> existing.value.checksum == setup.digest(file.text)
  }

  predicate Known(snapshot: seq<Row>, file: File) {
    Lookup(snapshot, file.name).Some?
  }

  /** What is asked of the database for a file that the snapshot does not hold. */
  function Statements(stop: Option<Stop>, file: File, setup: Setup): seq<Event> {
    var executed, recorded := Executed(file.name, file.text), Recorded(RowOf(file, setup));
    match stop
    case None => [executed, recorded]
    case Some(Interrupted) => [executed, recorded]
    case Some(SqlError) => [executed]
    case Some(NotRecorded) => [executed]
    case _ => []
  }

  function NewRows(stop: Option<Stop>, file: File, setup: Setup): seq<Row> {
    if stop in {None, Some(Interrupted)} then [RowOf(file, setup)] else []
  }

  function Visit(p: Progress, snapshot: seq<Row>, file: File, fault: Fault, setup: Setup): Progress
    requires p.stop.None?
  {
    var stop := Verdict(p.ledger, snapshot, file, fault, setup);
    var passed := p.passed + if stop.None? then 1 else 0;
    if Known(snapshot, file) then p.(passed := passed, stop := stop)
    else
      Progress(p.ledger + NewRows(stop, file, setup), p.events + Statements(stop, file, setup), passed,
               p.applied + (if stop.None? then 1 else 0), stop)
  }

  /** The run from file number `p.passed` on; an exception leaves it where it is. */
  function Continue(p: Progress, snapshot: seq<Row>, files: seq<File>, faults: seq<Fault>, setup: Setup): Progress
    requires p.passed <= |files|
    decreases |files| - p.passed, p.stop.None?
  {
    if p.stop.Some? || p.passed == |files| then p
    else Continue(Visit(p, snapshot, files[p.passed], FaultAt(faults, p.passed), setup), snapshot, files, faults, setup)
  }

  function Run(ledger: seq<Row>, files: seq<File>, faults: seq<Fault>, setup: Setup): Progress {
    Continue(Progress(ledger, [], 0, 0, None), ledger, files, faults, setup)
  }

  /** The files left over once the rows found before and the files just applied are taken off; never negative. */
  function Pending(files: seq<File>, snapshot: seq<Row>, applied: nat): nat {
    if |files| - |snapshot| - applied > 0 then |files| - |snapshot| - applied else 0
  }

  // ----- the runner

  datatype Outcome = Finished(applied: nat, pending: nat) | Aborted(stop: Stop)

  class Runner {
    const setup: Setup
    var ledger: seq<Row>
    ghost var history: seq<Event>

    constructor (setup: Setup)
      ensures this.setup == setup && ledger == [] && history == []
    {
      this.setup, ledger, history := setup, [], [];
    }

    method Execute(file: File)
      modifies `history
      ensures history == old(history) + [Executed(file.name, file.text)]
    {
      history := history + [Executed(file.name, file.text)];
    }

    method Insert(row: Row) returns (ok: bool)
      modifies `ledger, `history
      ensures ok <==> !Refused(old(ledger), row, setup)
      ensures ledger == if ok then old(ledger) + [row] else old(ledger)
      ensures history == if ok then old(history) + [Recorded(row)] else old(history)
    {
      ok := !Refused(ledger, row, setup);
      if ok {
        ledger := ledger + [row];
        history := history + [Recorded(row)];
      }
    }

    /** The loop body: `ran` counts the file, a stop is the exception that leaves the loop. */
    method VisitFile(applied: seq<Row>, file: File, fault: Fault, ghost p: Progress)
      returns (ran: nat, stop: Option<Stop>, ghost events: seq<Event>)
      requires p.ledger == ledger && p.stop.None?
      modifies `ledger, `history
      ensures Visit(p, applied, file, fault, setup)
        == Progress(ledger, p.events + events, p.passed + (if stop.None? then 1 else 0), p.applied + ran, stop)
      ensures history == old(history) + events
    {
      ran, stop, events := 0, None, [];
      if fault.ReadFails? {
        return 0, Some(Unreadable), [];
      }
      var row := RowOf(file, setup);
      var existing := Lookup(applied, file.name);
      if existing.Some? {
        if existing.value.checksum != row.checksum {
          stop := Some(ChecksumMismatch);
        }
        return;
      }
      Execute(file);
      events := [Executed(file.name, file.text)];
      assert p.events + events == p.events + [Executed(file.name, file.text)];
      if fault.SqlFails? {
        return 0, Some(SqlError), events;
      }
      if fault.DiesBeforeRecord? {
        return 0, Some(NotRecorded), events;
      }
      var ok := Insert(row);
      if !ok {
        return 0, Some(NotRecorded), events;
      }
      events := events + [Recorded(row)];
      if fault.DiesAfterRecord? {
        return 0, Some(Interrupted), events;
      }
      ran := 1;
    }

    method RunMigrations(files: seq<File>, faults: seq<Fault>) returns (outcome: Outcome)
      modifies `ledger, `history
      ensures var p := Run(old(ledger), files, faults, setup);
        && ledger == p.ledger && history == old(history) + p.events
        && outcome == if p.stop.Some? then Aborted(p.stop.value)
                      else Finished(p.applied, Pending(files, old(ledger), p.applied))
    {
      var applied := ledger;
      var appliedCount := 0;
      ghost var events, whole := [], Run(ledger, files, faults, setup);
      for k := 0 to |files|
        invariant history == old(history) + events
        invariant Continue(Progress(ledger, events, k, appliedCount, None), applied, files, faults, setup) == whole
      {
        ghost var p := Progress(ledger, events, k, appliedCount, None);
        ContinueStep(p, applied, files, faults, setup);
        var ran, stop, added := VisitFile(applied, files[k], FaultAt(faults, k), p);
        events := events + added;
        appliedCount := appliedCount + ran;
        if stop.Some? {
          return Aborted(stop.value);
        }
      }
      outcome := Finished(appliedCount, Pending(files, applied, appliedCount));
    }
  }

  lemma ContinueStep(p: Progress, snapshot: seq<Row>, files: seq<File>, faults: seq<Fault>, setup: Setup)
    requires p.stop.None? && p.passed < |files|
    ensures var q := Visit(p, snapshot, files[p.passed], FaultAt(faults, p.passed), setup);
      && q.passed <= |files|
      && Continue(p, snapshot, files, faults, setup) == Continue(q, snapshot, files, faults, setup)
      && (q.stop.Some? ==> Continue(q, snapshot, files, faults, setup) == q)
  {
  }

  // ----- what one run does

  /** The files that the snapshot does not hold, in order. */
  function Fresh(snapshot: seq<Row>, files: seq<File>): seq<File> {
    if files == [] then []
    else
      var done, last := Fresh(snapshot, files[..|files| - 1]), files[|files| - 1];
      if Known(snapshot, last) then done else done + [last]
  }

  function RowsOf(files: seq<File>, setup: Setup): seq<Row> {
    if files == [] then [] else RowsOf(files[..|files| - 1], setup) + [RowOf(files[|files| - 1], setup)]
  }

  /** Each file executed, and recorded before the next one. */
  function ExecutedAndRecorded(files: seq<File>, setup: Setup): (r: seq<Event>) {
    if files == [] then []
    else ExecutedAndRecorded(files[..|files| - 1], setup) + Statements(None, files[|files| - 1], setup)
  }

  lemma {:induction false} FreshStep(snapshot: seq<Row>, files: seq<File>, k: nat, setup: Setup)
    requires k < |files|
    ensures var done, next := Fresh(snapshot, files[..k]), Fresh(snapshot, files[..k + 1]);
      if Known(snapshot, files[k]) then next == done
      else
        && next == done + [files[k]]
        && RowsOf(next, setup) == RowsOf(done, setup) + NewRows(None, files[k], setup)
        && ExecutedAndRecorded(next, setup) == ExecutedAndRecorded(done, setup) + Statements(None, files[k], setup)
  {
    var done := Fresh(snapshot, files[..k]);
    assert files[..k + 1][..k] == files[..k];
    assert (done + [files[k]])[..|done|] == done;
  }

  /** A run under way, in closed form: it has executed and recorded the unknown files so far. */
  ghost predicate UnderWay(p: Progress, snapshot: seq<Row>, files: seq<File>, setup: Setup)
    requires p.passed <= |files|
  {
    var done := Fresh(snapshot, files[..p.passed]);
    && p.applied == |done|
    && p.ledger == snapshot + RowsOf(done, setup)
    && p.events == ExecutedAndRecorded(done, setup)
  }

  /** A run that has stopped: as `UnderWay`, and then what the file it stopped at left behind. */
  ghost predicate StoppedAt(p: Progress, snapshot: seq<Row>, files: seq<File>, setup: Setup) {
    && p.stop.Some? && p.passed < |files|
    && var done, file := Fresh(snapshot, files[..p.passed]), files[p.passed];
    && p.applied == |done|
    && (p.stop == Some(ChecksumMismatch) ==> !Unchanged(snapshot, file, setup))
    && (p.stop.value !in {Unreadable, ChecksumMismatch} ==> !Known(snapshot, file))
    && p.ledger
       == snapshot + RowsOf(done, setup) + (if Known(snapshot, file) then [] else NewRows(p.stop, file, setup))
    && p.events
       == ExecutedAndRecorded(done, setup) + (if Known(snapshot, file) then [] else Statements(p.stop, file, setup))
  }

  lemma VisitPasses(p: Progress, snapshot: seq<Row>, files: seq<File>, fault: Fault, setup: Setup)
    requires p.stop.None? && p.passed < |files| && UnderWay(p, snapshot, files, setup)
    requires Verdict(p.ledger, snapshot, files[p.passed], fault, setup).None?
    ensures var q := Visit(p, snapshot, files[p.passed], fault, setup);
      && q.stop.None? && q.passed == p.passed + 1
      && UnderWay(q, snapshot, files, setup) && Unchanged(snapshot, files[p.passed], setup)
  {
    FreshStep(snapshot, files, p.passed, setup);
    var done, file := Fresh(snapshot, files[..p.passed]), files[p.passed];
    if !Known(snapshot, file) {
      var row := NewRows(None, file, setup);
      assert snapshot + RowsOf(done, setup) + row == snapshot + (RowsOf(done, setup) + row);
    }
  }

  lemma VisitStops(p: Progress, snapshot: seq<Row>, files: seq<File>, fault: Fault, setup: Setup)
    requires p.stop.None? && p.passed < |files| && UnderWay(p, snapshot, files, setup)
    requires Verdict(p.ledger, snapshot, files[p.passed], fault, setup).Some?
    ensures var q := Visit(p, snapshot, files[p.passed], fault, setup);
      q.passed == p.passed && StoppedAt(q, snapshot, files, setup)
  {
  }

  lemma VisitForm(p: Progress, q: Progress, snapshot: seq<Row>, files: seq<File>, fault: Fault, setup: Setup)
    requires p.stop.None? && p.passed < |files| && UnderWay(p, snapshot, files, setup)
    requires q == Visit(p, snapshot, files[p.passed], fault, setup)
    ensures q.stop.None? ==>
      q.passed == p.passed + 1 && UnderWay(q, snapshot, files, setup) && Unchanged(snapshot, files[p.passed], setup)
    ensures q.stop.Some? ==> q.passed == p.passed && StoppedAt(q, snapshot, files, setup)
  {
    if Verdict(p.ledger, snapshot, files[p.passed], fault, setup).Some? {
      VisitStops(p, snapshot, files, fault, setup);
    } else {
      VisitPasses(p, snapshot, files, fault, setup);
    }
  }

  ghost predicate AllUnchanged(snapshot: seq<Row>, files: seq<File>, setup: Setup) {
    forall f <- files :: Unchanged(snapshot, f, setup)
  }

  /** Where a run ends, in closed form. */
  ghost predicate Ended(q: Progress, snapshot: seq<Row>, files: seq<File>, setup: Setup) {
    && q.passed <= |files|
    && (if q.stop.None? then q.passed == |files| && UnderWay(q, snapshot, files, setup)
        else StoppedAt(q, snapshot, files, setup))
    && AllUnchanged(snapshot, files[..q.passed], setup)
  }

  lemma OneMoreUnchanged(snapshot: seq<Row>, files: seq<File>, k: nat, setup: Setup)
    requires k < |files| && AllUnchanged(snapshot, files[..k], setup) && Unchanged(snapshot, files[k], setup)
    ensures AllUnchanged(snapshot, files[..k + 1], setup)
  {
    assert files[..k + 1] == files[..k] + [files[k]];
  }

  /** One visit of a run under way: the run goes on from where it leads, or has ended there. */
  lemma VisitOnce(p: Progress, snapshot: seq<Row>, files: seq<File>, faults: seq<Fault>, setup: Setup)
    returns (q: Progress)
    requires p.stop.None? && p.passed < |files| && UnderWay(p, snapshot, files, setup)
    requires AllUnchanged(snapshot, files[..p.passed], setup)
    ensures q.passed <= |files|
    ensures Continue(p, snapshot, files, faults, setup) == Continue(q, snapshot, files, faults, setup)
    ensures q.stop.None? ==>
      && q.passed == p.passed + 1 && UnderWay(q, snapshot, files, setup)
      && AllUnchanged(snapshot, files[..q.passed], setup)
    ensures q.stop.Some? ==>
      Continue(q, snapshot, files, faults, setup) == q && Ended(q, snapshot, files, setup)
  {
    q := Visit(p, snapshot, files[p.passed], FaultAt(faults, p.passed), setup);
    ContinueStep(p, snapshot, files, faults, setup);
    VisitForm(p, q, snapshot, files, FaultAt(faults, p.passed), setup);
    if q.stop.None? {
      OneMoreUnchanged(snapshot, files, p.passed, setup);
    }
  }

  /**
   Every run, whatever breaks it: it executes and records exactly the unknown files before the
   one it stops at, in order, and all the files it passed were unchanged or unknown.
   */
  lemma {:induction false} ContinueForm(p: Progress, snapshot: seq<Row>, files: seq<File>, faults: seq<Fault>,
                                        setup: Setup)
    requires p.stop.None? && p.passed <= |files| && UnderWay(p, snapshot, files, setup)
    requires AllUnchanged(snapshot, files[..p.passed], setup)
    ensures Ended(Continue(p, snapshot, files, faults, setup), snapshot, files, setup)
    decreases |files| - p.passed
  {
    if p.passed < |files| {
      var q := VisitOnce(p, snapshot, files, faults, setup);
      if q.stop.None? {
        ContinueForm(q, snapshot, files, faults, setup);
      }
    }
  }

  lemma RunForm(ledger: seq<Row>, files: seq<File>, faults: seq<Fault>, setup: Setup)
    ensures var q := Run(ledger, files, faults, setup);
      && (if q.stop.None? then q.passed == |files| && UnderWay(q, ledger, files, setup)
          else StoppedAt(q, ledger, files, setup))
      && (forall i :: 0 <= i < q.passed ==> Unchanged(ledger, files[i], setup))
      && ledger <= q.ledger
  {
    assert files[..0] == [];
    ContinueForm(Progress(ledger, [], 0, 0, None), ledger, files, faults, setup);
    var q := Run(ledger, files, faults, setup);
    assert forall i :: 0 <= i < q.passed ==> files[i] in files[..q.passed];
  }

  // ----- every sequence of runs

  ghost predicate DistinctNames(files: seq<File>) {
    forall i, j :: 0 <= i < j < |files| ==> files[i].name != files[j].name
  }

  /** The ledger and everything the database was asked to do since the ledger was empty. */
  datatype World = World(ledger: seq<Row>, history: seq<Event>)

  /** The ledger holds what was recorded, and nothing else. */
  ghost predicate LedgerIsRecord(w: World) {
    forall row :: row in w.ledger <==> Recorded(row) in w.history
  }

  /** Every row was recorded right after the text it stands for was executed. */
  ghost predicate RecordsFollowExecutions(history: seq<Event>, setup: Setup) {
    forall i :: 0 <= i < |history| && history[i].Recorded? ==>
      && i > 0 && history[i - 1].Executed?
      && history[i].row == RowOf(File(history[i - 1].name, history[i - 1].text), setup)
  }

  ghost predicate NothingRecordedIsExecuted(history: seq<Event>) {
    forall i, j :: 0 <= i < j < |history| && history[i].Recorded? && history[j].Executed? ==>
      history[i].row.filename != history[j].name
  }

  ghost predicate Sound(w: World, setup: Setup) {
    && UniqueKeys(w.ledger, setup)
    && LedgerIsRecord(w)
    && RecordsFollowExecutions(w.history, setup)
    && NothingRecordedIsExecuted(w.history)
  }

  lemma {:induction false} LookupFinds(rows: seq<Row>, name: string)
    ensures match Lookup(rows, name)
            case Some(row) => row in rows && row.filename == name
            case None => forall row <- rows :: row.filename != name
  {
    if rows != [] {
      SplitLast(rows);
      LookupFinds(rows[..|rows| - 1], name);
    }
  }

  lemma ExecuteKeepsSound(w: World, file: File, setup: Setup)
    requires Sound(w, setup)
    requires forall row <- w.ledger :: row.filename != file.name
    ensures Sound(w.(history := w.history + [Executed(file.name, file.text)]), setup)
  {
  }

  lemma RecordKeepsKeys(rows: seq<Row>, row: Row, setup: Setup)
    requires UniqueKeys(rows, setup) && !Refused(rows, row, setup)
    ensures UniqueKeys(rows + [row], setup)
  {
  }

  lemma RecordKeepsRecord(w: World, row: Row)
    requires LedgerIsRecord(w)
    ensures LedgerIsRecord(World(w.ledger + [row], w.history + [Recorded(row)]))
  {
  }

  lemma RecordKeepsOrder(history: seq<Event>, file: File, setup: Setup)
    requires RecordsFollowExecutions(history, setup)
    requires history != [] && history[|history| - 1] == Executed(file.name, file.text)
    ensures RecordsFollowExecutions(history + [Recorded(RowOf(file, setup))], setup)
  {
  }

  lemma RecordKeepsPast(history: seq<Event>, row: Row)
    requires NothingRecordedIsExecuted(history)
    ensures NothingRecordedIsExecuted(history + [Recorded(row)])
  {
  }

  lemma RecordKeepsSound(w: World, file: File, setup: Setup)
    requires Sound(w, setup) && !Refused(w.ledger, RowOf(file, setup), setup)
    requires w.history != [] && w.history[|w.history| - 1] == Executed(file.name, file.text)
    ensures Sound(World(w.ledger + [RowOf(file, setup)], w.history + [Recorded(RowOf(file, setup))]), setup)
  {
    RecordKeepsKeys(w.ledger, RowOf(file, setup), setup);
    RecordKeepsRecord(w, RowOf(file, setup));
    RecordKeepsOrder(w.history, file, setup);
    RecordKeepsPast(w.history, RowOf(file, setup));
  }

  /** The names a run may still execute are in no ledger row. */
  ghost predicate Ahead(p: Progress, snapshot: seq<Row>, files: seq<File>) {
    forall i, row :: p.passed <= i < |files| && !Known(snapshot, files[i]) && row in p.ledger ==>
      row.filename != files[i].name
  }

  /** A visit leaves things as they are, or executes an unknown file, or executes and records one. */
  lemma VisitAdds(p: Progress, snapshot: seq<Row>, file: File, fault: Fault, setup: Setup)
    requires p.stop.None?
    ensures var q, row := Visit(p, snapshot, file, fault, setup), RowOf(file, setup);
      var executed := Executed(file.name, file.text);
      || (q.ledger == p.ledger && q.events == p.events)
      || (!Known(snapshot, file) && q.ledger == p.ledger && q.events == p.events + [executed])
      || (!Known(snapshot, file) && !Refused(p.ledger, row, setup)
          && q.ledger == p.ledger + [row] && q.events == p.events + [executed, Recorded(row)])
  {
  }

  lemma ExecuteAndRecordKeepsSound(w: World, file: File, setup: Setup)
    requires Sound(w, setup) && forall row <- w.ledger :: row.filename != file.name
    requires !Refused(w.ledger, RowOf(file, setup), setup)
    ensures Sound(World(w.ledger + [RowOf(file, setup)],
                        w.history + [Executed(file.name, file.text), Recorded(RowOf(file, setup))]), setup)
  {
    var executed, recorded := Executed(file.name, file.text), Recorded(RowOf(file, setup));
    ExecuteKeepsSound(w, file, setup);
    RecordKeepsSound(w.(history := w.history + [executed]), file, setup);
    assert w.history + [executed] + [recorded] == w.history + [executed, recorded];
  }

  lemma VisitKeepsSound(p: Progress, snapshot: seq<Row>, files: seq<File>, fault: Fault, setup: Setup, past: seq<Event>)
    requires p.stop.None? && p.passed < |files| && Ahead(p, snapshot, files)
    requires Sound(World(p.ledger, past + p.events), setup)
    ensures var q := Visit(p, snapshot, files[p.passed], fault, setup);
      Sound(World(q.ledger, past + q.events), setup)
  {
    var file, w := files[p.passed], World(p.ledger, past + p.events);
    var executed, recorded := Executed(file.name, file.text), Recorded(RowOf(file, setup));
    VisitAdds(p, snapshot, file, fault, setup);
    assert past + (p.events + [executed]) == w.history + [executed];
    assert past + (p.events + [executed, recorded]) == w.history + [executed, recorded];
    if !Known(snapshot, file) {
      ExecuteKeepsSound(w, file, setup);
      if !Refused(p.ledger, RowOf(file, setup), setup) {
        ExecuteAndRecordKeepsSound(w, file, setup);
      }
    }
  }

  lemma VisitStaysAhead(p: Progress, snapshot: seq<Row>, files: seq<File>, fault: Fault, setup: Setup)
    requires p.stop.None? && p.passed < |files| && DistinctNames(files) && Ahead(p, snapshot, files)
    ensures var q := Visit(p, snapshot, files[p.passed], fault, setup); q.stop.None? ==> Ahead(q, snapshot, files)
  {
  }

  lemma {:induction false} ContinueKeepsSound(p: Progress, snapshot: seq<Row>, files: seq<File>, faults: seq<Fault>,
                                              setup: Setup, past: seq<Event>)
    requires p.stop.None? && p.passed <= |files| && DistinctNames(files) && Ahead(p, snapshot, files)
    requires Sound(World(p.ledger, past + p.events), setup)
    ensures var q := Continue(p, snapshot, files, faults, setup); Sound(World(q.ledger, past + q.events), setup)
    decreases |files| - p.passed
  {
    if p.passed < |files| {
      VisitKeepsSound(p, snapshot, files, FaultAt(faults, p.passed), setup, past);
      var q := Visit(p, snapshot, files[p.passed], FaultAt(faults, p.passed), setup);
      VisitStaysAhead(p, snapshot, files, FaultAt(faults, p.passed), setup);
      if q.stop.None? {
        ContinueKeepsSound(q, snapshot, files, faults, setup, past);
      }
    }
  }

  /** One start of the runner: the files it lists, and where it is broken off. */
  datatype Start = Start(files: seq<File>, faults: seq<Fault>)

  function RunOn(w: World, start: Start, setup: Setup): World {
    var p := Run(w.ledger, start.files, start.faults, setup);
    World(p.ledger, w.history + p.events)
  }

  function AfterRuns(starts: seq<Start>, setup: Setup): World {
    if starts == [] then World([], []) else RunOn(AfterRuns(starts[..|starts| - 1], setup), starts[|starts| - 1], setup)
  }

  /**
   Over every sequence of runs, successful or broken off anywhere, with any files listed at any
   time: the ledger holds each file name and version once, each row carries the digest of the
   text that was executed just before it was stored, and no recorded file is executed again.
   */
  lemma {:induction false} EveryHistoryIsSound(starts: seq<Start>, setup: Setup)
    requires forall s <- starts :: DistinctNames(s.files)
    ensures Sound(AfterRuns(starts, setup), setup)
  {
    if starts != [] {
      var before, start := AfterRuns(starts[..|starts| - 1], setup), starts[|starts| - 1];
      EveryHistoryIsSound(starts[..|starts| - 1], setup);
      assert before.history + [] == before.history;
      forall i | 0 <= i < |start.files|
        ensures !Known(before.ledger, start.files[i]) ==>
          forall row <- before.ledger :: row.filename != start.files[i].name
      {
        LookupFinds(before.ledger, start.files[i].name);
      }
      var p := Progress(before.ledger, [], 0, 0, None);
      ContinueKeepsSound(p, before.ledger, start.files, start.faults, setup, before.history);
    }
  }

  lemma {:induction false} LedgerOnlyGrows(starts: seq<Start>, k: nat, setup: Setup)
    requires k <= |starts|
    ensures AfterRuns(starts[..k], setup).ledger <= AfterRuns(starts, setup).ledger
    ensures AfterRuns(starts[..k], setup).history <= AfterRuns(starts, setup).history
  {
    if k == |starts| {
      assert starts[..k] == starts;
    } else {
      var front := starts[..|starts| - 1];
      assert front[..k] == starts[..k];
      LedgerOnlyGrows(front, k, setup);
      RunForm(AfterRuns(front, setup).ledger, starts[|starts| - 1].files, starts[|starts| - 1].faults, setup);
    }
  }

  /** The runs that died, or were refused the row, between running a file and recording it. */
  function Losses(starts: seq<Start>, setup: Setup): nat {
    if starts == [] then 0
    else
      var before, start := starts[..|starts| - 1], starts[|starts| - 1];
      var stop := Run(AfterRuns(before, setup).ledger, start.files, start.faults, setup).stop;
      Losses(before, setup) + if LosesExecution(stop) then 1 else 0
  }

  predicate LosesExecution(stop: Option<Stop>) {
    stop in {Some(SqlError), Some(NotRecorded)}
  }

  function Executions(history: seq<Event>): nat {
    |Filter((e: Event) => e.Executed?, history)|
  }

  function Recordings(history: seq<Event>): nat {
    |Filter((e: Event) => e.Recorded?, history)|
  }

  lemma CountsAppend(a: seq<Event>, b: seq<Event>)
    ensures Executions(a + b) == Executions(a) + Executions(b)
    ensures Recordings(a + b) == Recordings(a) + Recordings(b)
  {
    FilterAppend((e: Event) => e.Executed?, a, b);
    FilterAppend((e: Event) => e.Recorded?, a, b);
  }

  lemma CountsOfOne(e: Event)
    ensures Executions([e]) == if e.Executed? then 1 else 0
    ensures Recordings([e]) == if e.Recorded? then 1 else 0
  {
  }

  lemma LeftoverCounts(stop: Option<Stop>, file: File, setup: Setup)
    ensures var events, rows := Statements(stop, file, setup), |NewRows(stop, file, setup)|;
      Recordings(events) == rows && Executions(events) == rows + if LosesExecution(stop) then 1 else 0
  {
    var executed, recorded := Executed(file.name, file.text), Recorded(RowOf(file, setup));
    CountsOfOne(executed);
    CountsOfOne(recorded);
    CountsAppend([executed], [recorded]);
    assert [executed] + [recorded] == [executed, recorded];
    assert Recordings([]) == 0 && Executions([]) == 0;
    match stop
    case None =>
    case Some(Interrupted) =>
    case Some(SqlError) =>
    case Some(NotRecorded) =>
    case _ =>
  }

  lemma {:induction false} ClosedFormCounts(files: seq<File>, setup: Setup)
    ensures |RowsOf(files, setup)| == |files|
    ensures Executions(ExecutedAndRecorded(files, setup)) == Recordings(ExecutedAndRecorded(files, setup)) == |files|
  {
    if files != [] {
      var front, last := files[..|files| - 1], files[|files| - 1];
      ClosedFormCounts(front, setup);
      LeftoverCounts(None, last, setup);
      CountsAppend(ExecutedAndRecorded(front, setup), Statements(None, last, setup));
    }
  }

  lemma RunCounts(ledger: seq<Row>, files: seq<File>, faults: seq<Fault>, setup: Setup)
    ensures var q := Run(ledger, files, faults, setup);
      && Recordings(q.events) == |q.ledger| - |ledger|
      && Executions(q.events) == |q.ledger| - |ledger| + if LosesExecution(q.stop) then 1 else 0
  {
    RunForm(ledger, files, faults, setup);
    var q := Run(ledger, files, faults, setup);
    var done := Fresh(ledger, files[..q.passed]);
    ClosedFormCounts(done, setup);
    if q.stop.Some? {
      LeftoverCounts(q.stop, files[q.passed], setup);
      CountsAppend(ExecutedAndRecorded(done, setup), Statements(q.stop, files[q.passed], setup));
      assert ExecutedAndRecorded(done, setup) + [] == ExecutedAndRecorded(done, setup);
    }
  }

  /** Conservation: there are as many records as rows, and every other execution is the loss of one run. */
  lemma {:induction false} ExecutionsAreRowsOrLosses(starts: seq<Start>, setup: Setup)
    ensures var w := AfterRuns(starts, setup);
      Recordings(w.history) == |w.ledger| && Executions(w.history) == |w.ledger| + Losses(starts, setup)
  {
    if starts != [] {
      var before, start := AfterRuns(starts[..|starts| - 1], setup), starts[|starts| - 1];
      ExecutionsAreRowsOrLosses(starts[..|starts| - 1], setup);
      RunCounts(before.ledger, start.files, start.faults, setup);
      CountsAppend(before.history, Run(before.ledger, start.files, start.faults, setup).events);
    }
  }

  // ----- which executions are lost

  /** Executions and records in turn. */
  ghost predicate Alternates(events: seq<Event>) {
    |events| % 2 == 0 && forall i :: 0 <= i < |events| ==> (events[i].Executed? <==> i % 2 == 0)
  }

  lemma AlternatesAppend(events: seq<Event>, executed: Event, recorded: Event)
    requires Alternates(events) && executed.Executed? && recorded.Recorded?
    ensures Alternates(events + [executed, recorded])
  {
  }

  lemma {:induction false} ClosedFormAlternates(files: seq<File>, setup: Setup)
    ensures Alternates(ExecutedAndRecorded(files, setup))
  {
    if files != [] {
      var last := files[|files| - 1];
      ClosedFormAlternates(files[..|files| - 1], setup);
      AlternatesAppend(ExecutedAndRecorded(files[..|files| - 1], setup),
                       Executed(last.name, last.text), Recorded(RowOf(last, setup)));
    }
  }

  /** What can follow: nothing, an execution, or an execution and its record. */
  predicate Leftover(events: seq<Event>) {
    events == [] || (events[0].Executed? && (|events| == 1 || (|events| == 2 && events[1].Recorded?)))
  }

  /** Event `i` is followed by a record, or is the last one and all of the leftover. */
  ghost predicate RecordedOrLeft(all: seq<Event>, left: seq<Event>, i: nat)
    requires i < |all|
  {
    (i + 1 < |all| && all[i + 1].Recorded?) || (i + 1 == |all| && left == [all[i]])
  }

  lemma AfterAlternation(done: seq<Event>, left: seq<Event>, i: nat)
    requires Alternates(done) && Leftover(left) && i < |done + left|
    ensures (done + left)[0].Executed?
    ensures (done + left)[i].Executed? ==> RecordedOrLeft(done + left, left, i)
  {
  }

  /** What a run did after the files it passed. */
  function LeftBehind(q: Progress, snapshot: seq<Row>, files: seq<File>, setup: Setup): seq<Event>
    requires q.stop.Some? ==> q.passed < |files|
  {
    if q.stop.None? || Known(snapshot, files[q.passed]) then [] else Statements(q.stop, files[q.passed], setup)
  }

  lemma FormEvents(q: Progress, snapshot: seq<Row>, files: seq<File>, setup: Setup)
    requires q.passed <= |files|
    requires if q.stop.None? then UnderWay(q, snapshot, files, setup) else StoppedAt(q, snapshot, files, setup)
    ensures var left := LeftBehind(q, snapshot, files, setup);
      && q.events == ExecutedAndRecorded(Fresh(snapshot, files[..q.passed]), setup) + left && Leftover(left)
      && (|left| == 1 ==>
            && LosesExecution(q.stop) && q.passed < |files|
            && left == [Executed(files[q.passed].name, files[q.passed].text)])
  {
  }

  /** In one run an execution is followed by its record, or is the last thing the run did. */
  lemma ExecutionInRun(ledger: seq<Row>, files: seq<File>, faults: seq<Fault>, setup: Setup, i: nat)
    requires i < |Run(ledger, files, faults, setup).events|
    ensures var q := Run(ledger, files, faults, setup);
      && q.events[0].Executed?
      && (q.events[i].Executed? ==>
            || (i + 1 < |q.events| && q.events[i + 1].Recorded?)
            || (i + 1 == |q.events| && LosesExecution(q.stop) && q.passed < |files|
                && q.events[i] == Executed(files[q.passed].name, files[q.passed].text)))
  {
    RunForm(ledger, files, faults, setup);
    var q := Run(ledger, files, faults, setup);
    var done := Fresh(ledger, files[..q.passed]);
    FormEvents(q, ledger, files, setup);
    ClosedFormAlternates(done, setup);
    AfterAlternation(ExecutedAndRecorded(done, setup), LeftBehind(q, ledger, files, setup), i);
  }

  /** The log as it stood after the first `k` runs, and what run number `k` then did. */
  function LogAfter(starts: seq<Start>, k: nat, setup: Setup): seq<Event>
    requires k <= |starts|
  {
    AfterRuns(starts[..k], setup).history
  }

  function RunNumber(starts: seq<Start>, k: nat, setup: Setup): Progress
    requires k < |starts|
  {
    Run(AfterRuns(starts[..k], setup).ledger, starts[k].files, starts[k].faults, setup)
  }

  lemma LogStep(starts: seq<Start>, k: nat, setup: Setup)
    requires k < |starts|
    ensures LogAfter(starts, k + 1, setup) == LogAfter(starts, k, setup) + RunNumber(starts, k, setup).events
    ensures LogAfter(starts, k + 1, setup) <= AfterRuns(starts, setup).history
  {
    assert starts[..k + 1][..k] == starts[..k];
    LedgerOnlyGrows(starts, k + 1, setup);
  }

  /** The run that an event of the log belongs to. */
  lemma {:induction false} RunOfEvent(starts: seq<Start>, setup: Setup, i: nat, n: nat) returns (k: nat)
    requires n <= |starts| && i < |LogAfter(starts, n, setup)|
    ensures k < n && |LogAfter(starts, k, setup)| <= i < |LogAfter(starts, k + 1, setup)|
    decreases n
  {
    assert starts[..0] == [];
    k := n - 1;
    if i < |LogAfter(starts, n - 1, setup)| {
      k := RunOfEvent(starts, setup, i, n - 1);
    }
  }

  /** Run number `k` died, or was refused the row, with event `i`: the execution of the file it stopped at. */
  ghost predicate LostAt(starts: seq<Start>, k: nat, i: nat, setup: Setup)
    requires k < |starts|
  {
    var run, log := RunNumber(starts, k, setup), LogAfter(starts, k + 1, setup);
    && LosesExecution(run.stop) && run.passed < |starts[k].files|
    && i == |log| - 1 && log[i] == Executed(starts[k].files[run.passed].name, starts[k].files[run.passed].text)
  }

  lemma LostIsUnrecorded(starts: seq<Start>, setup: Setup, i: nat, k: nat)
    requires k < |starts| && LostAt(starts, k, i, setup) && i < |AfterRuns(starts, setup).history|
    ensures var h := AfterRuns(starts, setup).history; i + 1 == |h| || h[i + 1].Executed?
  {
    assert starts[..|starts|] == starts;
    if i + 1 < |AfterRuns(starts, setup).history| {
      FirstOfRunIsExecuted(starts, setup, k + 1);
    }
  }

  lemma RecordedOrLost(starts: seq<Start>, setup: Setup, i: nat) returns (k: nat)
    requires i < |AfterRuns(starts, setup).history| && AfterRuns(starts, setup).history[i].Executed?
    ensures var h := AfterRuns(starts, setup).history;
      k < |starts| && (LostAt(starts, k, i, setup) || (i + 1 < |h| && h[i + 1].Recorded?))
  {
    assert starts[..|starts|] == starts;
    k := RunOfEvent(starts, setup, i, |starts|);
    ExecutionOfRun(starts, setup, k, i);
  }

  /** An execution is not followed by its record exactly when a run ended right there. */
  lemma UnrecordedIff(starts: seq<Start>, setup: Setup, i: nat)
    requires i < |AfterRuns(starts, setup).history| && AfterRuns(starts, setup).history[i].Executed?
    ensures var h := AfterRuns(starts, setup).history;
      i + 1 == |h| || h[i + 1].Executed? <==> exists k: nat :: k < |starts| && LostAt(starts, k, i, setup)
  {
    if k: nat :| k < |starts| && LostAt(starts, k, i, setup) {
      LostIsUnrecorded(starts, setup, i, k);
    } else {
      var k := RecordedOrLost(starts, setup, i);
    }
  }

  lemma InLog(past: seq<Event>, events: seq<Event>, log: seq<Event>, i: nat)
    requires past + events <= log && |past| <= i < |past| + |events|
    ensures log[i] == events[i - |past|]
    ensures i + 1 < |past| + |events| ==> i + 1 < |log| && log[i + 1] == events[i - |past| + 1]
  {
  }

  /** The last event of a run that lost it. */
  lemma LastIsLost(starts: seq<Start>, setup: Setup, k: nat, i: nat)
    requires k < |starts| && LosesExecution(RunNumber(starts, k, setup).stop)
    requires var run := RunNumber(starts, k, setup);
      && run.passed < |starts[k].files| && run.events != []
      && run.events[|run.events| - 1]
         == Executed(starts[k].files[run.passed].name, starts[k].files[run.passed].text)
    requires i + 1 == |LogAfter(starts, k + 1, setup)|
    ensures LostAt(starts, k, i, setup)
  {
    LogStep(starts, k, setup);
  }

  lemma ExecutionOfRun(starts: seq<Start>, setup: Setup, k: nat, i: nat)
    requires k < |starts| && |LogAfter(starts, k, setup)| <= i < |LogAfter(starts, k + 1, setup)|
    ensures var h := AfterRuns(starts, setup).history;
      i < |h| && (h[i].Executed? ==> LostAt(starts, k, i, setup) || (i + 1 < |h| && h[i + 1].Recorded?))
  {
    LogStep(starts, k, setup);
    var before := AfterRuns(starts[..k], setup);
    ExecutionInRun(before.ledger, starts[k].files, starts[k].faults, setup, i - |LogAfter(starts, k, setup)|);
    InLog(LogAfter(starts, k, setup), RunNumber(starts, k, setup).events, AfterRuns(starts, setup).history, i);
    var h, run := AfterRuns(starts, setup).history, RunNumber(starts, k, setup);
    if h[i].Executed? && i - |LogAfter(starts, k, setup)| + 1 == |run.events| {
      LastIsLost(starts, setup, k, i);
    }
  }

  lemma LogsGrow(starts: seq<Start>, k: nat, n: nat, setup: Setup)
    requires k <= n <= |starts|
    ensures LogAfter(starts, k, setup) <= LogAfter(starts, n, setup)
  {
    assert starts[..n][..k] == starts[..k];
    LedgerOnlyGrows(starts[..n], k, setup);
  }

  /** The run that adds to the log next, after the first `k` ones. */
  lemma NextToAdd(starts: seq<Start>, setup: Setup, k: nat) returns (next: nat)
    requires k <= |starts| && |LogAfter(starts, k, setup)| < |LogAfter(starts, |starts|, setup)|
    ensures k <= next < |starts| && LogAfter(starts, next, setup) == LogAfter(starts, k, setup)
    ensures RunNumber(starts, next, setup).events != []
  {
    var i := |LogAfter(starts, k, setup)|;
    next := RunOfEvent(starts, setup, i, |starts|);
    LogStep(starts, next, setup);
    if next < k {
      LogsGrow(starts, next + 1, k, setup);
    } else {
      LogsGrow(starts, k, next, setup);
    }
  }

  lemma FirstOfRunIsExecuted(starts: seq<Start>, setup: Setup, k: nat)
    requires k <= |starts| && |LogAfter(starts, k, setup)| < |LogAfter(starts, |starts|, setup)|
    ensures LogAfter(starts, |starts|, setup)[|LogAfter(starts, k, setup)|].Executed?
  {
    var next := NextToAdd(starts, setup, k);
    var before := AfterRuns(starts[..next], setup);
    ExecutionInRun(before.ledger, starts[next].files, starts[next].faults, setup, 0);
    LogStep(starts, next, setup);
    assert starts[..|starts|] == starts;
  }

  /**
   A file is executed twice only if some run died, or was refused the row, right after the first
   execution: that run stopped at this very file, and the execution is the last thing it did.
   */
  lemma TwiceMeansUnrecorded(starts: seq<Start>, setup: Setup, i: nat, j: nat) returns (k: nat)
    requires forall s <- starts :: DistinctNames(s.files)
    requires var h := AfterRuns(starts, setup).history;
      i < j < |h| && h[i].Executed? && h[j].Executed? && h[i].name == h[j].name
    ensures k < |starts| && LostAt(starts, k, i, setup)
    ensures starts[k].files[RunNumber(starts, k, setup).passed].name == AfterRuns(starts, setup).history[i].name
  {
    EveryHistoryIsSound(starts, setup);
    TwiceIsUnrecorded(AfterRuns(starts, setup).history, setup, i, j);
    k := RecordedOrLost(starts, setup, i);
    LostName(starts, setup, k, i);
  }

  lemma TwiceIsUnrecorded(h: seq<Event>, setup: Setup, i: nat, j: nat)
    requires RecordsFollowExecutions(h, setup) && NothingRecordedIsExecuted(h)
    requires i < j < |h| && h[i].Executed? && h[j].Executed? && h[i].name == h[j].name
    ensures h[i + 1].Executed?
  {
  }

  lemma LostName(starts: seq<Start>, setup: Setup, k: nat, i: nat)
    requires k < |starts| && LostAt(starts, k, i, setup)
    ensures var h, run := AfterRuns(starts, setup).history, RunNumber(starts, k, setup);
      i < |h| && h[i].Executed? && starts[k].files[run.passed].name == h[i].name
  {
    LogStep(starts, k, setup);
  }

  // ----- when a run finishes

  lemma VisitKeepsUniqueKeys(p: Progress, snapshot: seq<Row>, file: File, fault: Fault, setup: Setup)
    requires p.stop.None? && UniqueKeys(p.ledger, setup)
    ensures UniqueKeys(Visit(p, snapshot, file, fault, setup).ledger, setup)
  {
  }

  lemma {:induction false} ContinueKeepsUniqueKeys(p: Progress, snapshot: seq<Row>, files: seq<File>,
                                                   faults: seq<Fault>, setup: Setup)
    requires p.stop.None? && p.passed <= |files| && UniqueKeys(p.ledger, setup)
    ensures UniqueKeys(Continue(p, snapshot, files, faults, setup).ledger, setup)
    decreases |files| - p.passed
  {
    if p.passed < |files| {
      var q := Visit(p, snapshot, files[p.passed], FaultAt(faults, p.passed), setup);
      VisitKeepsUniqueKeys(p, snapshot, files[p.passed], FaultAt(faults, p.passed), setup);
      if q.stop.None? {
        ContinueKeepsUniqueKeys(q, snapshot, files, faults, setup);
      }
    }
  }

  lemma {:induction false} FreshRow(snapshot: seq<Row>, files: seq<File>, setup: Setup, f: File)
    requires f in files && !Known(snapshot, f)
    ensures RowOf(f, setup) in RowsOf(Fresh(snapshot, files), setup)
  {
    var front := files[..|files| - 1];
    SplitLast(files);
    assert files[..|files|] == files;
    FreshStep(snapshot, files, |files| - 1, setup);
    if f in front {
      FreshRow(snapshot, front, setup, f);
    }
  }

  lemma {:induction false} LookupOfUnique(rows: seq<Row>, row: Row, setup: Setup)
    requires UniqueKeys(rows, setup) && row in rows
    ensures Lookup(rows, row.filename) == Some(row)
  {
    var front := rows[..|rows| - 1];
    SplitLast(rows);
    if row in front {
      LookupOfUnique(front, row, setup);
    }
  }

  /** A file unchanged so far is recorded with its digest, once its row is stored if it is unknown. */
  lemma RecordedAfter(ledger: seq<Row>, f: File, after: seq<Row>, setup: Setup)
    requires UniqueKeys(after, setup) && ledger <= after && Unchanged(ledger, f, setup)
    requires Known(ledger, f) || RowOf(f, setup) in after
    ensures Known(after, f) && Unchanged(after, f, setup)
  {
    LookupFinds(ledger, f.name);
    var row := if Known(ledger, f) then Lookup(ledger, f.name).value else RowOf(f, setup);
    assert row in after;
    LookupOfUnique(after, row, setup);
  }

  /** A finished run leaves every listed file recorded with the digest of its text. */
  lemma FinishedRunRecordsAll(ledger: seq<Row>, files: seq<File>, faults: seq<Fault>, setup: Setup, f: File)
    requires UniqueKeys(ledger, setup) && Run(ledger, files, faults, setup).stop.None? && f in files
    ensures var after := Run(ledger, files, faults, setup).ledger;
      Known(after, f) && Unchanged(after, f, setup)
  {
    RunForm(ledger, files, faults, setup);
    ContinueKeepsUniqueKeys(Progress(ledger, [], 0, 0, None), ledger, files, faults, setup);
    if !Known(ledger, f) {
      assert files[..|files|] == files;
      FreshRow(ledger, files, setup, f);
    }
    RecordedAfter(ledger, f, Run(ledger, files, faults, setup).ledger, setup);
  }

  lemma {:induction false} NothingToDo(p: Progress, snapshot: seq<Row>, files: seq<File>, faults: seq<Fault>,
                                       setup: Setup)
    requires p.stop.None? && p.passed <= |files|
    requires forall f <- files :: Known(snapshot, f) && Unchanged(snapshot, f, setup)
    ensures var q := Continue(p, snapshot, files, faults, setup);
      && q.events == p.events && q.ledger == p.ledger && q.applied == p.applied
      && ((forall k :: p.passed <= k < |files| ==> !FaultAt(faults, k).ReadFails?) ==> q.stop.None?)
    decreases |files| - p.passed
  {
    if p.passed < |files| {
      var q := Visit(p, snapshot, files[p.passed], FaultAt(faults, p.passed), setup);
      assert files[p.passed] in files;
      if q.stop.None? {
        NothingToDo(q, snapshot, files, faults, setup);
      }
    }
  }

  /** After a finished run, running again executes nothing, and finishes if the files can be read. */
  lemma SecondRunDoesNothing(ledger: seq<Row>, files: seq<File>, faults: seq<Fault>, again: seq<Fault>, setup: Setup)
    requires UniqueKeys(ledger, setup) && Run(ledger, files, faults, setup).stop.None?
    ensures var after := Run(ledger, files, faults, setup).ledger;
      var q := Run(after, files, again, setup);
      && q.events == [] && q.ledger == after && q.applied == 0
      && ((forall k :: 0 <= k < |files| ==> !FaultAt(again, k).ReadFails?) ==> q.stop.None?)
  {
    var after := Run(ledger, files, faults, setup).ledger;
    forall f <- files
      ensures Known(after, f) && Unchanged(after, f, setup)
    {
      FinishedRunRecordsAll(ledger, files, faults, setup, f);
    }
    NothingToDo(Progress(after, [], 0, 0, None), after, files, again, setup);
  }

  ghost function Names(rows: seq<Row>): (r: set<string>) {
    set row <- rows :: row.filename
  }

  lemma {:induction false} NamesFit(rows: seq<Row>)
    ensures |Names(rows)| <= |rows|
  {
    if rows != [] {
      var front, last := rows[..|rows| - 1], rows[|rows| - 1];
      SplitLast(rows);
      NamesFit(front);
      assert Names(rows) == Names(front) + {last.filename};
    }
  }

  function KnownNames(snapshot: seq<Row>, files: seq<File>): set<string> {
    if files == [] then {}
    else
      var front, last := KnownNames(snapshot, files[..|files| - 1]), files[|files| - 1];
      if Known(snapshot, last) then front + {last.name} else front
  }

  lemma {:induction false} KnownAndFresh(snapshot: seq<Row>, files: seq<File>)
    requires DistinctNames(files)
    ensures |KnownNames(snapshot, files)| + |Fresh(snapshot, files)| == |files|
    ensures forall name <- KnownNames(snapshot, files) :: name in Names(snapshot) && exists f <- files :: f.name == name
  {
    if files != [] {
      var last := files[|files| - 1];
      SplitLast(files);
      KnownAndFresh(snapshot, files[..|files| - 1]);
      LookupFinds(snapshot, last.name);
      assert last.name !in KnownNames(snapshot, files[..|files| - 1]);
    }
  }

  /** A finished run reports nothing pending, whatever the ledger held, rows of deleted files included. */
  lemma FinishedRunReportsNonePending(ledger: seq<Row>, files: seq<File>, faults: seq<Fault>, setup: Setup)
    requires DistinctNames(files) && Run(ledger, files, faults, setup).stop.None?
    ensures Pending(files, ledger, Run(ledger, files, faults, setup).applied) == 0
  {
    RunForm(ledger, files, faults, setup);
    assert files[..|files|] == files;
    KnownAndFresh(ledger, files);
    SubsetSize(KnownNames(ledger, files), Names(ledger));
    NamesFit(ledger);
  }

  // ----- which files a run passes, and why it stops

  ghost predicate Unrecorded(ledger: seq<Row>, name: string) {
    forall row <- ledger :: row.filename != name
  }

  /** The row of file number `k` fits the columns, and no row and no unrecorded file before it has one of its keys. */
  ghost predicate Storable(ledger: seq<Row>, files: seq<File>, k: nat, setup: Setup)
    requires k < |files|
  {
    var name, version := setup.fold(files[k].name), setup.fold(Version(files[k].name));
    && setup.fits(Row(Version(files[k].name), files[k].name, setup.digest(files[k].text)))
    && (forall row <- ledger :: setup.fold(row.filename) != name && setup.fold(row.version) != version)
    && (forall i :: 0 <= i < k && Unrecorded(ledger, files[i].name) ==>
          setup.fold(files[i].name) != name && setup.fold(Version(files[i].name)) != version)
  }

  /** What a caller can check beforehand: no recorded file has changed, and every new row can be stored. */
  ghost predicate Runnable(ledger: seq<Row>, files: seq<File>, setup: Setup) {
    && (forall f <- files, row <- ledger :: row.filename == f.name ==> row.checksum == setup.digest(f.text))
    && (forall k :: 0 <= k < |files| && Unrecorded(ledger, files[k].name) ==> Storable(ledger, files, k, setup))
  }

  /** The fault does no harm to file number `k`; only an unreadable text hurts a file that the ledger holds. */
  ghost predicate Harmless(ledger: seq<Row>, file: File, fault: Fault) {
    if Unrecorded(ledger, file.name) then fault.NoFault? else !fault.ReadFails?
  }

  /** A run that gets to file number `k` gets past it. */
  ghost predicate Passable(ledger: seq<Row>, files: seq<File>, fault: Fault, k: nat, setup: Setup)
    requires k < |files|
  {
    && Harmless(ledger, files[k], fault)
    && (forall row <- ledger :: row.filename == files[k].name ==> row.checksum == setup.digest(files[k].text))
    && (Unrecorded(ledger, files[k].name) ==> Storable(ledger, files, k, setup))
  }

  /** Why a run that gets to file number `k` stops there, from what it meets at that file. */
  ghost predicate Explains(stop: Stop, ledger: seq<Row>, files: seq<File>, fault: Fault, k: nat, setup: Setup)
    requires k < |files|
  {
    var file, unrecorded := files[k], Unrecorded(ledger, files[k].name);
    match stop
    case Unreadable => fault.ReadFails?
    case ChecksumMismatch =>
      !fault.ReadFails? && exists row <- ledger :: row.filename == file.name && row.checksum != setup.digest(file.text)
    case SqlError => unrecorded && fault.SqlFails?
    case NotRecorded =>
      && unrecorded
      && (fault.DiesBeforeRecord? || ((fault.NoFault? || fault.DiesAfterRecord?) && !Storable(ledger, files, k, setup)))
    case Interrupted => unrecorded && fault.DiesAfterRecord? && Storable(ledger, files, k, setup)
  }

  lemma KnownIff(ledger: seq<Row>, file: File, setup: Setup)
    requires UniqueKeys(ledger, setup)
    ensures Known(ledger, file) <==> !Unrecorded(ledger, file.name)
    ensures Unchanged(ledger, file, setup)
      <==> forall row <- ledger :: row.filename == file.name ==> row.checksum == setup.digest(file.text)
  {
    LookupFinds(ledger, file.name);
    forall row <- ledger | row.filename == file.name
      ensures Lookup(ledger, file.name) == Some(row)
    {
      LookupOfUnique(ledger, row, setup);
    }
  }

  lemma {:induction false} FreshRowOrigin(snapshot: seq<Row>, files: seq<File>, setup: Setup, row: Row)
    returns (f: File)
    requires row in RowsOf(Fresh(snapshot, files), setup)
    ensures f in files && !Known(snapshot, f) && row == RowOf(f, setup)
  {
    f := files[|files| - 1];
    assert files[..|files|] == files;
    FreshStep(snapshot, files, |files| - 1, setup);
    if row in RowsOf(Fresh(snapshot, files[..|files| - 1]), setup) {
      f := FreshRowOrigin(snapshot, files[..|files| - 1], setup, row);
    }
  }

  lemma RefusedIff(p: Progress, snapshot: seq<Row>, files: seq<File>, setup: Setup)
    requires p.passed < |files| && UnderWay(p, snapshot, files, setup) && UniqueKeys(snapshot, setup)
    ensures Refused(p.ledger, RowOf(files[p.passed], setup), setup) <==> !Storable(snapshot, files, p.passed, setup)
  {
    var k, row := p.passed, RowOf(files[p.passed], setup);
    var added := RowsOf(Fresh(snapshot, files[..k]), setup);
    if Storable(snapshot, files, k, setup) {
      forall r <- added
        ensures !SameKey(r, row, setup)
      {
        var f := FreshRowOrigin(snapshot, files[..k], setup, r);
        KnownIff(snapshot, f, setup);
        var i :| 0 <= i < k && files[i] == f;
        assert Unrecorded(snapshot, files[i].name);
      }
    } else if !Refused(p.ledger, row, setup) {
      assert forall r :: r in snapshot ==> r in p.ledger;
      forall i | 0 <= i < k && Unrecorded(snapshot, files[i].name)
        ensures !SameKey(RowOf(files[i], setup), row, setup)
      {
        KnownIff(snapshot, files[i], setup);
        assert files[i] in files[..k];
        FreshRow(snapshot, files[..k], setup, files[i]);
        assert RowOf(files[i], setup) in p.ledger;
      }
    }
  }

  lemma VerdictByFacts(ledger: seq<Row>, snapshot: seq<Row>, files: seq<File>, fault: Fault, k: nat, setup: Setup,
                       stop: Stop)
    requires k < |files| && (Known(snapshot, files[k]) <==> !Unrecorded(snapshot, files[k].name))
    requires Unchanged(snapshot, files[k], setup)
      <==> forall row <- snapshot :: row.filename == files[k].name ==> row.checksum == setup.digest(files[k].text)
    requires Refused(ledger, RowOf(files[k], setup), setup) <==> !Storable(snapshot, files, k, setup)
    ensures var verdict := Verdict(ledger, snapshot, files[k], fault, setup);
      && (verdict.None? <==> Passable(snapshot, files, fault, k, setup))
      && (verdict == Some(stop) <==> Explains(stop, snapshot, files, fault, k, setup))
  {
  }

  lemma VerdictIff(p: Progress, snapshot: seq<Row>, files: seq<File>, fault: Fault, setup: Setup, stop: Stop)
    requires p.passed < |files| && UnderWay(p, snapshot, files, setup) && UniqueKeys(snapshot, setup)
    ensures var verdict := Verdict(p.ledger, snapshot, files[p.passed], fault, setup);
      && (verdict.None? <==> Passable(snapshot, files, fault, p.passed, setup))
      && (verdict == Some(stop) <==> Explains(stop, snapshot, files, fault, p.passed, setup))
  {
    KnownIff(snapshot, files[p.passed], setup);
    RefusedIff(p, snapshot, files, setup);
    VerdictByFacts(p.ledger, snapshot, files, fault, p.passed, setup, stop);
  }

  ghost predicate PassableAt(ledger: seq<Row>, files: seq<File>, faults: seq<Fault>, k: nat, setup: Setup)
    requires k < |files|
  {
    Passable(ledger, files, if k < |faults| then faults[k] else NoFault, k, setup)
  }

  /** A run that has ended, told from the files it was given. */
  ghost predicate Traced(q: Progress, snapshot: seq<Row>, files: seq<File>, faults: seq<Fault>, setup: Setup) {
    && q.passed <= |files| && (q.stop.None? <==> q.passed == |files|)
    && (q.stop.Some? ==>
          && !PassableAt(snapshot, files, faults, q.passed, setup)
          && forall stop :: q.stop == Some(stop) <==> ExplainsAt(stop, snapshot, files, faults, q.passed, setup))
  }

  ghost predicate ExplainsAt(stop: Stop, ledger: seq<Row>, files: seq<File>, faults: seq<Fault>, k: nat, setup: Setup)
    requires k < |files|
  {
    Explains(stop, ledger, files, if k < |faults| then faults[k] else NoFault, k, setup)
  }

  lemma VisitTraced(p: Progress, q: Progress, snapshot: seq<Row>, files: seq<File>, faults: seq<Fault>, setup: Setup)
    requires p.stop.None? && p.passed < |files| && UnderWay(p, snapshot, files, setup) && UniqueKeys(snapshot, setup)
    requires q == Visit(p, snapshot, files[p.passed], FaultAt(faults, p.passed), setup)
    ensures q.stop.None? ==>
      && q.passed == p.passed + 1 && UnderWay(q, snapshot, files, setup)
      && PassableAt(snapshot, files, faults, p.passed, setup)
    ensures q.stop.Some? ==> q.passed == p.passed && Traced(q, snapshot, files, faults, setup)
  {
    var fault := FaultAt(faults, p.passed);
    VisitForm(p, q, snapshot, files, fault, setup);
    VerdictIff(p, snapshot, files, fault, setup, Unreadable);
    forall stop
      ensures q.stop == Some(stop) <==> Explains(stop, snapshot, files, fault, p.passed, setup)
    {
      VerdictIff(p, snapshot, files, fault, setup, stop);
    }
  }

  lemma {:induction false} ContinueTraced(p: Progress, snapshot: seq<Row>, files: seq<File>, faults: seq<Fault>,
                                          setup: Setup)
    requires p.stop.None? && p.passed <= |files| && UnderWay(p, snapshot, files, setup) && UniqueKeys(snapshot, setup)
    ensures Traced(Continue(p, snapshot, files, faults, setup), snapshot, files, faults, setup)
    decreases |files| - p.passed
  {
    if p.passed < |files| {
      var q := Visit(p, snapshot, files[p.passed], FaultAt(faults, p.passed), setup);
      VisitTraced(p, q, snapshot, files, faults, setup);
      if q.stop.None? {
        ContinueTraced(q, snapshot, files, faults, setup);
      }
    }
  }

  ghost predicate AllPassable(n: nat, snapshot: seq<Row>, files: seq<File>, faults: seq<Fault>, setup: Setup)
    requires n <= |files|
  {
    forall k :: 0 <= k < n ==> PassableAt(snapshot, files, faults, k, setup)
  }

  lemma OneMorePassable(n: nat, snapshot: seq<Row>, files: seq<File>, faults: seq<Fault>, setup: Setup)
    requires n < |files| && AllPassable(n, snapshot, files, faults, setup)
    requires PassableAt(snapshot, files, faults, n, setup)
    ensures AllPassable(n + 1, snapshot, files, faults, setup)
  {
  }

  lemma {:induction false} ContinuePassed(p: Progress, snapshot: seq<Row>, files: seq<File>, faults: seq<Fault>,
                                          setup: Setup)
    requires p.stop.None? && p.passed <= |files| && UnderWay(p, snapshot, files, setup) && UniqueKeys(snapshot, setup)
    requires AllPassable(p.passed, snapshot, files, faults, setup)
    ensures var q := Continue(p, snapshot, files, faults, setup);
      q.passed <= |files| && AllPassable(q.passed, snapshot, files, faults, setup)
    decreases |files| - p.passed
  {
    if p.passed < |files| {
      var q := Visit(p, snapshot, files[p.passed], FaultAt(faults, p.passed), setup);
      VisitTraced(p, q, snapshot, files, faults, setup);
      if q.stop.None? {
        OneMorePassable(p.passed, snapshot, files, faults, setup);
        ContinuePassed(q, snapshot, files, faults, setup);
      }
    }
  }

  /**
   A run passes the files before the first one that is not passable, and all of them if each one
   is: whether a file is passable depends on the ledger found, the files and the fault met there.
   */
  lemma RunPassesIff(ledger: seq<Row>, files: seq<File>, faults: seq<Fault>, setup: Setup)
    requires UniqueKeys(ledger, setup)
    ensures var q := Run(ledger, files, faults, setup);
      && q.passed <= |files| && (q.stop.None? <==> q.passed == |files|)
      && (forall k :: 0 <= k < q.passed ==> PassableAt(ledger, files, faults, k, setup))
      && (q.passed < |files| ==> !PassableAt(ledger, files, faults, q.passed, setup))
  {
    assert files[..0] == [];
    ContinuePassed(Progress(ledger, [], 0, 0, None), ledger, files, faults, setup);
    ContinueTraced(Progress(ledger, [], 0, 0, None), ledger, files, faults, setup);
  }

  /** A stopped run stopped for exactly one reason, found at the file it did not pass. */
  lemma RunStopsBecause(ledger: seq<Row>, files: seq<File>, faults: seq<Fault>, setup: Setup, stop: Stop)
    requires UniqueKeys(ledger, setup) && Run(ledger, files, faults, setup).stop.Some?
    ensures var q := Run(ledger, files, faults, setup);
      && q.passed < |files|
      && (q.stop == Some(stop) <==> ExplainsAt(stop, ledger, files, faults, q.passed, setup))
  {
    assert files[..0] == [];
    ContinueTraced(Progress(ledger, [], 0, 0, None), ledger, files, faults, setup);
  }

  /**
   A run finishes exactly when it was runnable to begin with and no fault did harm: no listed
   file was unreadable, and nothing at all went wrong at a file that the ledger did not hold.
   */
  lemma RunFinishesIff(ledger: seq<Row>, files: seq<File>, faults: seq<Fault>, setup: Setup)
    requires UniqueKeys(ledger, setup)
    ensures Run(ledger, files, faults, setup).stop.None? <==>
      && Runnable(ledger, files, setup)
      && (forall k :: 0 <= k < |files| && k < |faults| ==> Harmless(ledger, files[k], faults[k]))
  {
    RunPassesIff(ledger, files, faults, setup);
    var q := Run(ledger, files, faults, setup);
    if q.stop.None? {
      forall f <- files, row <- ledger | row.filename == f.name
        ensures row.checksum == setup.digest(f.text)
      {
        var k :| 0 <= k < |files| && files[k] == f;
        assert PassableAt(ledger, files, faults, k, setup);
      }
      forall k | 0 <= k < |files|
        ensures Unrecorded(ledger, files[k].name) ==> Storable(ledger, files, k, setup)
        ensures k < |faults| ==> Harmless(ledger, files[k], faults[k])
      {
        assert PassableAt(ledger, files, faults, k, setup);
      }
    }
  }

  /** A run that nothing disturbs finishes exactly when it was runnable to begin with. */
  lemma UndisturbedRunFinishesIff(ledger: seq<Row>, files: seq<File>, setup: Setup)
    requires UniqueKeys(ledger, setup)
    ensures Run(ledger, files, [], setup).stop.None? <==> Runnable(ledger, files, setup)
  {
    RunFinishesIff(ledger, files, [], setup);
  }

  /** The run executed file number `k` and stored its row: it passed the file, or died right after the record. */
  ghost predicate StoresRowOf(q: Progress, ledger: seq<Row>, files: seq<File>, k: int) {
    && 0 <= k < |files| && Unrecorded(ledger, files[k].name)
    && (k < q.passed || (k == q.passed && q.stop == Some(Interrupted)))
  }

  lemma AddedRows(q: Progress, ledger: seq<Row>, files: seq<File>, setup: Setup) returns (left: seq<Row>)
    requires UniqueKeys(ledger, setup) && q.passed <= |files|
    requires if q.stop.None? then UnderWay(q, ledger, files, setup) else StoppedAt(q, ledger, files, setup)
    ensures q.ledger == ledger + (RowsOf(Fresh(ledger, files[..q.passed]), setup) + left)
    ensures left == if StoresRowOf(q, ledger, files, q.passed) then [RowOf(files[q.passed], setup)] else []
  {
    left := [];
    if q.stop.Some? {
      KnownIff(ledger, files[q.passed], setup);
      left := if Known(ledger, files[q.passed]) then [] else NewRows(q.stop, files[q.passed], setup);
    }
  }

  lemma StoredRowHasFile(q: Progress, ledger: seq<Row>, files: seq<File>, left: seq<Row>, setup: Setup, row: Row)
    requires UniqueKeys(ledger, setup) && q.passed <= |files|
    requires row in RowsOf(Fresh(ledger, files[..q.passed]), setup) + left
    requires left == if StoresRowOf(q, ledger, files, q.passed) then [RowOf(files[q.passed], setup)] else []
    ensures exists k :: StoresRowOf(q, ledger, files, k) && row == RowOf(files[k], setup)
  {
    var front := files[..q.passed];
    if row in RowsOf(Fresh(ledger, front), setup) {
      var f := FreshRowOrigin(ledger, front, setup, row);
      KnownIff(ledger, f, setup);
      var k :| 0 <= k < q.passed && files[k] == f;
      assert StoresRowOf(q, ledger, files, k);
    }
  }

  lemma StoredRowOfFile(q: Progress, ledger: seq<Row>, files: seq<File>, left: seq<Row>, setup: Setup, k: nat)
    requires UniqueKeys(ledger, setup) && q.passed <= |files| && StoresRowOf(q, ledger, files, k)
    requires left == if StoresRowOf(q, ledger, files, q.passed) then [RowOf(files[q.passed], setup)] else []
    ensures RowOf(files[k], setup) in RowsOf(Fresh(ledger, files[..q.passed]), setup) + left
  {
    KnownIff(ledger, files[k], setup);
    if k < q.passed {
      assert files[k] in files[..q.passed];
      FreshRow(ledger, files[..q.passed], setup, files[k]);
    }
  }

  /**
   The rows a run adds are the rows of the unrecorded files it passed, and of the file it was
   interrupted at; each of these was met with no fault, or with the one that comes after the record.
   */
  lemma StoredRowsAreEarned(ledger: seq<Row>, files: seq<File>, faults: seq<Fault>, setup: Setup)
    requires UniqueKeys(ledger, setup)
    ensures var q := Run(ledger, files, faults, setup);
      && ledger <= q.ledger
      && (forall row :: row in q.ledger[|ledger|..] <==>
            exists k :: StoresRowOf(q, ledger, files, k)
                        && row == Row(Version(files[k].name), files[k].name, setup.digest(files[k].text)))
      && forall k :: StoresRowOf(q, ledger, files, k) && k < |faults| ==>
           faults[k].NoFault? || (faults[k].DiesAfterRecord? && k == q.passed)
  {
    var q := Run(ledger, files, faults, setup);
    RunForm(ledger, files, faults, setup);
    RunPassesIff(ledger, files, faults, setup);
    forall k | StoresRowOf(q, ledger, files, k) && k < |faults|
      ensures faults[k].NoFault? || (faults[k].DiesAfterRecord? && k == q.passed)
    {
      if k < q.passed {
        assert PassableAt(ledger, files, faults, k, setup);
      } else {
        RunStopsBecause(ledger, files, faults, setup, Interrupted);
      }
    }
    var left := AddedRows(q, ledger, files, setup);
    forall row | row in q.ledger[|ledger|..]
      ensures exists k :: StoresRowOf(q, ledger, files, k) && row == RowOf(files[k], setup)
    {
      StoredRowHasFile(q, ledger, files, left, setup, row);
    }
    forall k | StoresRowOf(q, ledger, files, k)
      ensures RowOf(files[k], setup) in q.ledger[|ledger|..]
    {
      StoredRowOfFile(q, ledger, files, left, setup, k);
    }
  }

  /**
   A checksum mismatch aborts at the first changed file; the unknown files before it, and only
   they, were executed, each one recorded.
   */
  lemma MismatchStopsAtFirstChange(ledger: seq<Row>, files: seq<File>, faults: seq<Fault>, setup: Setup)
    requires Run(ledger, files, faults, setup).stop == Some(ChecksumMismatch)
    ensures var q := Run(ledger, files, faults, setup);
      && q.passed < |files| && !Unchanged(ledger, files[q.passed], setup)
      && (forall i :: 0 <= i < q.passed ==> Unchanged(ledger, files[i], setup))
      && q.events == ExecutedAndRecorded(Fresh(ledger, files[..q.passed]), setup)
      && q.ledger == ledger + RowsOf(Fresh(ledger, files[..q.passed]), setup)
  {
    RunForm(ledger, files, faults, setup);
  }
}
