/** What is on disk and when: logs, tables, the manifest, background work in steps, removal of
    obsolete files, and restarts after a crash. */
module Durability {
  import opened Format
  import opened Versions
  import opened VersionBuilder
  import opened CompactionInputs
  import opened Database

  /** A batch as the log holds it: the sequence number of its first operation, and its operations. */
  datatype LogRecord = LogRecord(first: nat, ops: seq<Op>)

  type Logged = r: LogRecord | r.first + |r.ops| <= MAX_SEQUENCE + 1 witness LogRecord(0, [])

  ghost function Entries(log: seq<Logged>): set<Entry> {
    set i, e | 0 <= i < |log| && e in BatchSet(log[i].ops, log[i].first) :: e
  }

  /** What replaying the manifest yields. */
  datatype Manifest = Manifest(levels: Levels, logNumber: nat, lastSequence: SequenceNumber, nextFile: nat)

  datatype Disk = Disk(logs: map<nat, seq<Logged>>, tables: map<nat, File>, manifest: Manifest)

  /** What the one background thread is doing. Between `Installing` and `Idle` the manifest holds a
      version that memory does not have yet. */
  datatype Task =
    | Idle
    | Flushing(number: nat)
    | Flushed(action: Action)
    | Merging(action: Action)
    | Installing(action: Action)

  datatype System = System(
    db: State,
    counter: nat,               // the next file number
    logfileNumber: nat,         // the log being written
    logNumber: nat,             // older logs are not needed
    pending: set<nat>,          // tables being written
    held: seq<Levels>,          // versions that readers hold on to
    inFlight: Option<seq<Op>>,  // a batch that is logged but not applied yet
    task: Task,
    disk: Disk
  )

  /** What recoveries that crashed have left behind: tables that no version has, and empty logs. */
  datatype Leftovers = Leftovers(tables: map<nat, File>, logs: set<nat>)

  datatype Event =
    | LogWrite(ops: seq<Op>)
    | ApplyWrite
    | Switch
    | Snapshot
    | Release(at: nat)
    | Hold
    | Drop(at: nat)
    | StartFlush
    | BuildTable(level: nat)
    | StartMerge(level: nat, inputs0: seq<File>, inputs1: seq<File>, input: seq<Entry>)
    | WriteOutput(file: File)
    | LogEdit
    | LogMove(from: nat, file: File)
    | Install
    | DeleteObsoleteFiles
    | Restart(chunks: seq<seq<Logged>>, numbers: seq<nat>, logs: seq<nat>, newLog: nat, left: Leftovers)

  // ---------- Files that are needed ----------

  predicate NeedsLog(logNumber: nat, n: nat) {
    n >= logNumber
  }

  /** Is this table in a version someone uses? */
  ghost predicate InUse(sys: System, n: nat) {
    || n in sys.pending
    || (exists l, f :: 0 <= l < NUM_LEVELS && f in sys.db.levels[l] && f.number == n)
    || (exists i, l, f :: 0 <= i < |sys.held| && 0 <= l < NUM_LEVELS && f in sys.held[i][l] && f.number == n)
  }

  // ---------- Recovery ----------

  /** The disk as the recovery that succeeds finds it. */
  function WithLeftovers(disk: Disk, left: Leftovers): Disk {
    Disk(disk.logs + map n | n in left.logs :: [], disk.tables + left.tables, disk.manifest)
  }

  /** Failed recoveries take new file numbers: past the manifest's, and, for logs, past all logs. */
  predicate CanBeLeft(disk: Disk, left: Leftovers) {
    && (forall n | n in left.tables :: n > disk.manifest.nextFile)
    && (forall n | n in left.logs :: n > disk.manifest.nextFile && forall m | m in disk.logs :: m < n)
  }

  /** The memtable that replaying some records builds. */
  function Replayed(records: seq<Logged>): seq<Entry> {
    if records == [] then []
    else
      var last := records[|records| - 1];
      InsertBatch(Replayed(records[..|records| - 1]), last.ops, last.first)
  }

  /** The logs to replay, in order. */
  ghost predicate LogsToReplay(disk: Disk, logs: seq<nat>) {
    && (forall i, j | 0 <= i < j < |logs| :: logs[i] < logs[j])
    && forall n :: n in logs <==> n in disk.logs && NeedsLog(disk.manifest.logNumber, n)
  }

  function Contents(disk: Disk, logs: seq<nat>): seq<Logged>
    requires forall n | n in logs :: n in disk.logs
  {
    Concat(seq(|logs|, i requires 0 <= i < |logs| => disk.logs[logs[i]]))
  }

  /** Each stretch of records becomes a table at level 0, unless it is empty. */
  ghost function WithRecovered(levels: Levels, chunks: seq<seq<Logged>>, numbers: seq<nat>, o: Options): Levels
    requires |numbers| == |chunks|
    decreases |chunks|
  {
    if chunks == [] then levels
    else
      var n := |chunks| - 1;
      var before := WithRecovered(levels, chunks[..n], numbers[..n], o);
      var mem := Replayed(chunks[n]);
      if mem == [] || !Sorted(mem) then before
      else Edited(before, FlushEdit(0, Table(numbers[n], o.builtSize(mem), mem)))
  }

  function LastOf(records: seq<Logged>, atLeast: SequenceNumber): SequenceNumber {
    if records == [] then atLeast
    else
      var last := records[|records| - 1];
      var before := LastOf(records[..|records| - 1], atLeast);
      var end := last.first + |last.ops| - 1;
      if end > before then end else before
  }

  // ---------- Steps ----------

  /** The tables an action brings into the version. */
  ghost function NewTables(st: State, a: Action, o: Options): seq<File> {
    match a
    case CompactMemTable(_, number) =>
      if st.imm.None? || st.imm.value == [] || !Sorted(st.imm.value) then []
      else [Table(number, o.builtSize(st.imm.value), st.imm.value)]
    case Compact(_, _, _, _, _, outputs) => outputs
    case _ => []
  }

  ghost function WithTables(tables: map<nat, File>, files: seq<File>): map<nat, File> {
    if files == [] then tables
    else WithTables(tables, files[..|files| - 1])[files[|files| - 1].number := files[|files| - 1]]
  }

  function Numbers(files: seq<File>): set<nat> {
    set f | f in files :: f.number
  }

  /** The log number an edit records: a flush makes all logs but the current one obsolete. */
  function EditLogNumber(sys: System, a: Action): nat {
    if a.CompactMemTable? then sys.logfileNumber else sys.logNumber
  }

  ghost function Recorded(sys: System, a: Action, o: Options): Disk
    requires Enabled(sys.db, a, o)
  {
    sys.disk.(manifest := Manifest(After(sys.db, a, o).levels, EditLogNumber(sys, a), sys.db.lastSequence, sys.counter))
  }

  ghost predicate Can(sys: System, ev: Event, o: Options) {
    match ev
    case LogWrite(ops) => sys.inFlight.None? && Enabled(sys.db, Write(ops), o) && sys.logfileNumber in sys.disk.logs
    case ApplyWrite => sys.inFlight.Some? && Enabled(sys.db, Write(sys.inFlight.value), o)
    case Switch => sys.inFlight.None? && Enabled(sys.db, SwitchMemTable, o)
    case Snapshot => true
    case Release(i) => i < |sys.db.snapshots|
    case Hold => true
    case Drop(i) => i < |sys.held|
    case StartFlush => sys.task.Idle? && sys.db.imm.Some?
    case BuildTable(level) => sys.task.Flushing? && Enabled(sys.db, CompactMemTable(level, sys.task.number), o)
    case StartMerge(level, in0, in1, input) =>
      sys.task.Idle? && level + 1 < NUM_LEVELS && InputsOk(sys.db.levels, level, in0, in1) && IsInput(input, in0 + in1)
    case WriteOutput(f) => sys.task.Merging? && sys.task.action.Compact? && f.number == sys.counter
    case LogEdit => (sys.task.Flushed? || sys.task.Merging?) && Enabled(sys.db, sys.task.action, o)
    case LogMove(level, f) => sys.task.Idle? && Enabled(sys.db, TrivialMove(level, f), o)
    case Install => sys.task.Installing? && Enabled(sys.db, sys.task.action, o)
    case DeleteObsoleteFiles => sys.task.Idle? || sys.task.Merging?
    case Restart(chunks, numbers, logs, newLog, left) =>
      var disk := WithLeftovers(sys.disk, left);
      && CanBeLeft(sys.disk, left) && LogsToReplay(disk, logs) && Concat(chunks) == Contents(disk, logs)
      && |numbers| == |chunks| && (forall i, j | 0 <= i < j < |numbers| :: numbers[i] < numbers[j])
      && (forall i | 0 <= i < |numbers| :: disk.manifest.nextFile < numbers[i] < newLog)
      && (forall n | n in disk.logs :: n < newLog) && disk.manifest.nextFile < newLog
  }

  ghost function Next(sys: System, ev: Event, o: Options): System
    requires Can(sys, ev, o)
  {
    match ev
    case LogWrite(ops) =>
      var record: Logged := LogRecord(sys.db.lastSequence + 1, ops);
      sys.(disk := sys.disk.(logs := sys.disk.logs[sys.logfileNumber := sys.disk.logs[sys.logfileNumber] + [record]]),
           inFlight := Some(ops))
    case ApplyWrite => sys.(db := After(sys.db, Write(sys.inFlight.value), o), inFlight := None)
    case Switch =>
      sys.(db := After(sys.db, SwitchMemTable, o), disk := sys.disk.(logs := sys.disk.logs[sys.counter := []]),
           logfileNumber := sys.counter, counter := sys.counter + 1)
    case Snapshot => sys.(db := After(sys.db, GetSnapshot, o))
    case Release(i) => sys.(db := After(sys.db, ReleaseSnapshot(i), o))
    case Hold => sys.(held := sys.held + [sys.db.levels])
    case Drop(i) => sys.(held := sys.held[..i] + sys.held[i + 1..])
    case StartFlush => sys.(task := Flushing(sys.counter), pending := sys.pending + {sys.counter},
        counter := sys.counter + 1)
    case BuildTable(level) =>
      var a := CompactMemTable(level, sys.task.number);
      sys.(task := Flushed(a), pending := sys.pending - {sys.task.number},
           disk := sys.disk.(tables := WithTables(sys.disk.tables, NewTables(sys.db, a, o))))
    case StartMerge(level, in0, in1, input) =>
      sys.(task := Merging(Compact(level, in0, in1, SmallestSnapshot(sys.db), input, [])))
    case WriteOutput(f) =>
      sys.(task := Merging(sys.task.action.(outputs := sys.task.action.outputs + [f])),
           pending := sys.pending + {f.number}, counter := sys.counter + 1,
           disk := sys.disk.(tables := sys.disk.tables[f.number := f]))
    case LogEdit => sys.(task := Installing(sys.task.action), disk := Recorded(sys, sys.task.action, o))
    case LogMove(level, f) => sys.(task := Installing(TrivialMove(level, f)),
        disk := Recorded(sys, TrivialMove(level, f), o))
    case Install =>
      sys.(task := Idle, db := After(sys.db, sys.task.action, o), logNumber := sys.disk.manifest.logNumber,
           pending := sys.pending - Numbers(NewTables(sys.db, sys.task.action, o)))
    case DeleteObsoleteFiles =>
      sys.(disk := sys.disk.(logs := map n | n in sys.disk.logs && NeedsLog(sys.logNumber, n) :: sys.disk.logs[n],
                             tables := map n | n in sys.disk.tables && InUse(sys, n) :: sys.disk.tables[n]))
    case Restart(chunks, numbers, logs, newLog, left) =>
      var disk, m := WithLeftovers(sys.disk, left), sys.disk.manifest;
      var levels := WithRecovered(m.levels, chunks, numbers, o);
      var last := LastOf(Contents(disk, logs), m.lastSequence);
      System(State([], None, levels, last, [], newLog), newLog + 1, newLog, newLog, {}, [], None, Idle,
             Disk(disk.logs[newLog := []], WithTables(disk.tables, RecoveredTables(chunks, numbers, o)),
                  Manifest(levels, newLog, last, newLog + 1)))
  }

  ghost function RecoveredTables(chunks: seq<seq<Logged>>, numbers: seq<nat>, o: Options): seq<File>
    requires |numbers| == |chunks|
  {
    if chunks == [] then []
    else
      var n := |chunks| - 1;
      var before := RecoveredTables(chunks[..n], numbers[..n], o);
      var mem := Replayed(chunks[n]);
      if mem == [] || !Sorted(mem) then before else before + [Table(numbers[n], o.builtSize(mem), mem)]
  }

  // ---------- The invariant ----------

  ghost function Batch(db: State, inFlight: Option<seq<Op>>): set<Entry> {
    if inFlight.Some? && db.lastSequence + |inFlight.value| <= MAX_SEQUENCE
    then BatchSet(inFlight.value, db.lastSequence + 1) else {}
  }

  /** Records in the order of their sequence numbers. */
  ghost predicate Ordered(records: seq<Logged>) {
    forall i, j | 0 <= i < j < |records| :: records[i].first + |records[i].ops| <= records[j].first
  }

  /** The records of the memtables, oldest first. */
  ghost function LoggedRecords(sys: System): seq<Logged>
    requires sys.logfileNumber in sys.disk.logs && (sys.db.imm.Some? ==> sys.logNumber in sys.disk.logs)
  {
    (if sys.db.imm.Some? then sys.disk.logs[sys.logNumber] else []) + sys.disk.logs[sys.logfileNumber]
  }

  /** The needed logs are those of the memtables, which hold what the logs say. */
  ghost predicate LogsOk(sys: System, o: Options) {
    && sys.logfileNumber in sys.disk.logs
    && (forall n | n in sys.disk.logs && NeedsLog(sys.logNumber, n) :: n == sys.logNumber || n == sys.logfileNumber)
    && (if sys.db.imm.None? then sys.logNumber == sys.logfileNumber
        else sys.logNumber < sys.logfileNumber && sys.logNumber in sys.disk.logs
             && ImmSet(sys.db) == Entries(sys.disk.logs[sys.logNumber]))
    && SetOf(sys.db.mem) + Batch(sys.db, sys.inFlight) == Entries(sys.disk.logs[sys.logfileNumber])
    && Ordered(LoggedRecords(sys))
    && (sys.inFlight.Some? ==> Enabled(sys.db, Write(sys.inFlight.value), o) && InLog(sys))
  }

  /** The batch in flight is the last thing in the log. */
  ghost predicate InLog(sys: System)
    requires sys.logfileNumber in sys.disk.logs && sys.inFlight.Some?
  {
    var log := sys.disk.logs[sys.logfileNumber];
    log != [] && log[|log| - 1] == LogRecord(sys.db.lastSequence + 1, sys.inFlight.value)
  }

  /** No record reaches past what has been written, counting the batch in flight. */
  ghost predicate RecordsBounded(sys: System) {
    forall n, i | n in sys.disk.logs && NeedsLog(sys.logNumber, n) && 0 <= i < |sys.disk.logs[n]| ::
      var r := sys.disk.logs[n][i];
      r.first + |r.ops| <= sys.db.lastSequence + 1 + if sys.inFlight.Some? then |sys.inFlight.value| else 0
  }

  ghost predicate NumbersOk(sys: System) {
    && sys.db.nextFile <= sys.counter && sys.disk.manifest.nextFile <= sys.counter
    && sys.logNumber <= sys.logfileNumber < sys.counter
    && (forall n | n in sys.disk.logs :: n < sys.counter)
    && (sys.task.Flushing? ==> sys.db.nextFile <= sys.task.number < sys.counter && sys.task.number in sys.pending)
  }

  ghost predicate InTables(levels: Levels, tables: map<nat, File>) {
    forall l, f | 0 <= l < NUM_LEVELS && f in levels[l] :: f.number in tables && tables[f.number] == f
  }

  ghost predicate FilesInTables(files: seq<File>, tables: map<nat, File>) {
    forall f | f in files :: f.number in tables && tables[f.number] == f
  }

  /** Every table that a version or a job needs is on disk. */
  ghost predicate TablesOk(sys: System, o: Options) {
    && InTables(sys.db.levels, sys.disk.tables) && InTables(sys.disk.manifest.levels, sys.disk.tables)
    && (forall i | 0 <= i < |sys.held| :: InTables(sys.held[i], sys.disk.tables))
    && (forall i, l, f | 0 <= i < |sys.held| && 0 <= l < NUM_LEVELS && f in sys.held[i][l] ::
        f.number < sys.db.nextFile)
    && (sys.task.Flushed? || sys.task.Merging? ==>
        FilesInTables(NewTables(sys.db, sys.task.action, o), sys.disk.tables))
    && (sys.task.Merging? ==> Numbers(NewTables(sys.db, sys.task.action, o)) <= sys.pending)
  }

  ghost predicate TaskOk(sys: System, o: Options) {
    match sys.task
    case Idle => true
    case Flushing(_) => sys.db.imm.Some?
    case Flushed(a) => a.CompactMemTable? && Enabled(sys.db, a, o) && a.number < sys.counter
    case Merging(a) =>
      && a.Compact? && a.oldest <= SmallestSnapshot(sys.db) && a.level + 1 < NUM_LEVELS
      && InputsOk(sys.db.levels, a.level, a.inputs0, a.inputs1) && IsInput(a.input, a.inputs0 + a.inputs1)
      && FreshNumbers(a.outputs, sys.db.nextFile) && NextNumber(a.outputs, sys.db.nextFile) <= sys.counter
    case Installing(a) => (a.CompactMemTable? || a.Compact? || a.TrivialMove?) && Enabled(sys.db, a, o)
  }

  /** The store as it is once the recorded edit is installed. */
  ghost function Settled(sys: System, o: Options): State {
    if sys.task.Installing? && Enabled(sys.db, sys.task.action, o) then After(sys.db, sys.task.action, o) else sys.db
  }

  /** The manifest holds the settled version, and with the logs it is at or past every write. */
  ghost predicate ManifestOk(sys: System, o: Options) {
    var m := sys.disk.manifest;
    && m.levels == Settled(sys, o).levels && Settled(sys, o).nextFile <= m.nextFile
    && m.logNumber == (if sys.task.Installing? then EditLogNumber(sys, sys.task.action) else sys.logNumber)
    && m.lastSequence <= sys.db.lastSequence
    && forall e | e in AllEntries(m.levels, 0) :: e.key.sequence <= m.lastSequence
  }

  /** The records a restart now would replay. */
  ghost function Unsaved(sys: System): seq<Logged>
    requires sys.logfileNumber in sys.disk.logs && (sys.db.imm.Some? ==> sys.logNumber in sys.disk.logs)
  {
    if sys.disk.manifest.logNumber == sys.logfileNumber then sys.disk.logs[sys.logfileNumber] else LoggedRecords(sys)
  }

  ghost predicate Consistent(sys: System, o: Options) {
    && Inv(sys.db) && LogsOk(sys, o) && RecordsBounded(sys) && NumbersOk(sys) && TablesOk(sys, o) && TaskOk(sys, o)
    && ManifestOk(sys, o)
    && sys.db.lastSequence <= LastOf(Unsaved(sys), sys.disk.manifest.lastSequence)
  }
}
