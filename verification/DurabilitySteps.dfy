/** Every step of the durable store keeps its invariant. */
module DurabilitySteps {
  import opened Format
  import opened Versions
  import opened VersionBuilder
  import opened CompactionInputs
  import opened CompactionWork
  import opened Database
  import opened DatabaseInvariant
  import opened DatabaseRuns
  import opened Durability

  // ---------- Logs as sets of entries ----------

  lemma {:induction false} EntriesSnoc(log: seq<Logged>, r: Logged)
    ensures Entries(log + [r]) == Entries(log) + BatchSet(r.ops, r.first)
  {
    hide BatchSet;
    var both := log + [r];
    forall e ensures e in Entries(both) <==> e in Entries(log) || e in BatchSet(r.ops, r.first) {
      if e in Entries(log) {
        var i :| 0 <= i < |log| && e in BatchSet(log[i].ops, log[i].first);
        assert both[i] == log[i];
      }
      if e in BatchSet(r.ops, r.first) {
        assert both[|log|] == r;
      }
    }
  }

  lemma {:induction false} LastOfSnoc(log: seq<Logged>, r: Logged, m: SequenceNumber)
    ensures LastOf(log + [r], m) >= LastOf(log, m) && LastOf(log + [r], m) >= r.first + |r.ops| - 1
    ensures LastOf(log + [r], m) == LastOf(log, m) || LastOf(log + [r], m) == r.first + |r.ops| - 1
  {
    assert (log + [r])[..|log + [r]| - 1] == log;
  }

  lemma {:induction false} LastOfAtLeast(log: seq<Logged>, m: SequenceNumber)
    ensures LastOf(log, m) >= m
  {
    if log != [] {
      LastOfAtLeast(log[..|log| - 1], m);
    }
  }

  // ---------- What a step of the foreground leaves as it is ----------

  /** Background work that was possible stays possible, and leads to the same version. */
  lemma {:induction false} StaysPossible(st: State, st': State, a: Action, o: Options)
    requires Enabled(st, a, o) && (a.CompactMemTable? || a.Compact? || a.TrivialMove?)
    requires st'.levels == st.levels && st'.nextFile == st.nextFile && (a.CompactMemTable? ==> st'.imm == st.imm)
    requires SmallestSnapshot(st) <= SmallestSnapshot(st')
    ensures Enabled(st', a, o) && After(st', a, o).levels == After(st, a, o).levels
    ensures After(st', a, o).nextFile == After(st, a, o).nextFile && NewTables(st', a, o) == NewTables(st, a, o)
  {
    hide Edited, InputsOk, IsInput, Survivors, Written, IsFlushLevel, FreshNumbers;
  }

  /** Only what the users of the store do has changed. */
  ghost predicate Foreground(sys: System, sys': System) {
    && sys'.db.levels == sys.db.levels && sys'.db.nextFile == sys.db.nextFile
    && (sys.db.imm.Some? ==> sys'.db.imm == sys.db.imm && sys'.logfileNumber == sys.logfileNumber)
    && SmallestSnapshot(sys.db) <= SmallestSnapshot(sys'.db) && sys.db.lastSequence <= sys'.db.lastSequence
    && sys'.logNumber == sys.logNumber && sys'.pending == sys.pending && sys'.held == sys.held && sys'.task == sys.task
    && sys'.counter >= sys.counter
    && sys'.disk.tables == sys.disk.tables && sys'.disk.manifest == sys.disk.manifest
  }

  lemma {:induction false} ForegroundKeeps(sys: System, sys': System, o: Options)
    requires TablesOk(sys, o) && TaskOk(sys, o) && ManifestOk(sys, o) && Foreground(sys, sys')
    ensures TablesOk(sys', o) && TaskOk(sys', o) && ManifestOk(sys', o)
  {
    hide After, Enabled, InTables, NewTables, InputsOk, IsInput, FreshNumbers, AllEntries;
    FlushNeedsImm(sys, o);
    if sys.task.Flushed? || sys.task.Installing? {
      StaysPossible(sys.db, sys'.db, sys.task.action, o);
    }
    if sys.task.Merging? {
      MergeTables(sys.db, sys'.db, sys.task.action, o);
    }
  }

  lemma {:induction false} FlushNeedsImm(sys: System, o: Options)
    requires TaskOk(sys, o)
    ensures sys.task.Flushing? || ((sys.task.Flushed? || sys.task.Installing?) && sys.task.action.CompactMemTable?) ==>
        sys.db.imm.Some?
  {
    hide IsFlushLevel, InputsOk, IsInput, Survivors, Written, FreshNumbers;
  }

  lemma {:induction false} MergeTables(st: State, st': State, a: Action, o: Options)
    requires a.Compact?
    ensures NewTables(st, a, o) == a.outputs == NewTables(st', a, o)
  {
  }

  // ---------- Writes ----------

  lemma {:induction false} OrderedSnoc(log: seq<Logged>, r: Logged)
    requires Ordered(log) && forall i | 0 <= i < |log| :: log[i].first + |log[i].ops| <= r.first
    ensures Ordered(log + [r])
  {
  }

  /** With no batch in flight, what is logged ends where the store does. */
  lemma {:induction false} RecordsEnd(sys: System, o: Options)
    requires LogsOk(sys, o) && RecordsBounded(sys) && sys.inFlight.None?
    ensures forall i | 0 <= i < |LoggedRecords(sys)| ::
              LoggedRecords(sys)[i].first + |LoggedRecords(sys)[i].ops| <= sys.db.lastSequence + 1
  {
    hide Entries, Ordered;
    var current: seq<Logged> := sys.disk.logs[sys.logfileNumber];
    var older: seq<Logged> := if sys.db.imm.Some? then sys.disk.logs[sys.logNumber] else [];
    var both := older + current;
    forall i | 0 <= i < |both| ensures both[i].first + |both[i].ops| <= sys.db.lastSequence + 1 {
      if i >= |older| {
        assert both[i] == current[i - |older|];
      }
    }
  }

  lemma {:induction false} LogWriteKeeps(sys: System, ops: seq<Op>, o: Options)
    requires Consistent(sys, o) && Can(sys, LogWrite(ops), o)
    ensures Consistent(Next(sys, LogWrite(ops), o), o)
  {
    hide Inv, TablesOk, TaskOk, ManifestOk, LogsOk, RecordsBounded, Enabled, LastOf, Unsaved;
    var sys' := Next(sys, LogWrite(ops), o);
    ForegroundKeeps(sys, sys', o);
    LogWriteLogs(sys, ops, o);
  }

  lemma {:induction false} LogWriteLogs(sys: System, ops: seq<Op>, o: Options)
    requires LogsOk(sys, o) && RecordsBounded(sys) && Can(sys, LogWrite(ops), o)
    ensures var sys' := Next(sys, LogWrite(ops), o);
            && LogsOk(sys', o) && RecordsBounded(sys')
            && LastOf(Unsaved(sys'), sys.disk.manifest.lastSequence) >= LastOf(Unsaved(sys),
                sys.disk.manifest.lastSequence)
            && forall n | n in sys'.disk.logs :: n in sys.disk.logs
  {
    hide Entries, BatchSet, Ordered, LastOf;
    var sys' := Next(sys, LogWrite(ops), o);
    var r: Logged := LogRecord(sys.db.lastSequence + 1, ops);
    EntriesSnoc(sys.disk.logs[sys.logfileNumber], r);
    assert LoggedRecords(sys') == LoggedRecords(sys) + [r];
    assert Ordered(LoggedRecords(sys')) by {
      RecordsEnd(sys, o);
      OrderedSnoc(LoggedRecords(sys), r);
    }
    assert Unsaved(sys') == Unsaved(sys) + [r];
    LastOfSnoc(Unsaved(sys), r, sys.disk.manifest.lastSequence);
  }

  lemma {:induction false} ApplyWriteKeeps(sys: System, o: Options)
    requires Consistent(sys, o) && Can(sys, ApplyWrite, o)
    ensures Consistent(Next(sys, ApplyWrite, o), o)
  {
    hide TablesOk, TaskOk, ManifestOk, LogsOk, RecordsBounded, Unsaved, LastOf, Inv;
    var sys' := Next(sys, ApplyWrite, o);
    StepKeepsInv(sys.db, Write(sys.inFlight.value), o);
    ForegroundKeeps(sys, sys', o);
    ApplyWriteLogs(sys, o);
    LastIsInFlight(sys, o);
  }

  lemma {:induction false} ApplyWriteLogs(sys: System, o: Options)
    requires Inv(sys.db) && LogsOk(sys, o) && RecordsBounded(sys) && Can(sys, ApplyWrite, o)
    ensures LogsOk(Next(sys, ApplyWrite, o), o) && RecordsBounded(Next(sys, ApplyWrite, o))
    ensures Unsaved(Next(sys, ApplyWrite, o)) == Unsaved(sys)
  {
    hide Entries, BatchSet, Ordered, VersionOk, FilesOk, AllEntries, Sorted, InsertBatch;
    var ops := sys.inFlight.value;
    forall x | x in sys.db.mem ensures x.key.sequence < sys.db.lastSequence + 1 {
      assert x in All(sys.db);
    }
    InsertBatchHolds(sys.db.mem, ops, sys.db.lastSequence + 1);
  }

  lemma {:induction false} LastIsInFlight(sys: System, o: Options)
    requires LogsOk(sys, o) && sys.inFlight.Some?
    ensures LastOf(Unsaved(sys), sys.disk.manifest.lastSequence) >= sys.db.lastSequence + |sys.inFlight.value|
  {
    hide Entries, BatchSet, Ordered;
    var records := Unsaved(sys);
    var n := |records| - 1;
    assert records[n] == LogRecord(sys.db.lastSequence + 1, sys.inFlight.value);
    LastOfSnoc(records[..n], records[n], sys.disk.manifest.lastSequence);
    assert records == records[..n] + [records[n]];
  }

  lemma {:induction false} SwitchKeeps(sys: System, o: Options)
    requires Consistent(sys, o) && Can(sys, Switch, o)
    ensures Consistent(Next(sys, Switch, o), o)
  {
    hide TablesOk, TaskOk, ManifestOk, LogsOk, RecordsBounded, Unsaved, LastOf, Inv;
    var sys' := Next(sys, Switch, o);
    StepKeepsInv(sys.db, SwitchMemTable, o);
    ForegroundKeeps(sys, sys', o);
    ManifestLogNumber(sys, o);
    SwitchLogs(sys, o);
  }

  lemma {:induction false} SwitchLogs(sys: System, o: Options)
    requires LogsOk(sys, o) && RecordsBounded(sys) && Can(sys, Switch, o) && sys.logfileNumber < sys.counter
    requires (forall n | n in sys.disk.logs :: n < sys.counter) && sys.disk.manifest.logNumber == sys.logNumber
    ensures LogsOk(Next(sys, Switch, o), o) && RecordsBounded(Next(sys, Switch, o))
    ensures Unsaved(Next(sys, Switch, o)) == Unsaved(sys)
  {
    hide Ordered;
    var sys' := Next(sys, Switch, o);
    assert LoggedRecords(sys') == LoggedRecords(sys);
    assert Entries([]) == {};
  }

  /** While no memtable waits to be flushed, the manifest names the current log. */
  lemma {:induction false} ManifestLogNumber(sys: System, o: Options)
    requires ManifestOk(sys, o) && TaskOk(sys, o)
    ensures sys.db.imm.None? ==> sys.disk.manifest.logNumber == sys.logNumber
  {
    FlushNeedsImm(sys, o);
  }

  /** Nothing that the logs and the memtables hold has changed. */
  ghost predicate SameLogged(sys: System, sys': System) {
    && sys'.db.mem == sys.db.mem && sys'.db.imm == sys.db.imm && sys'.db.lastSequence == sys.db.lastSequence
    && sys'.inFlight == sys.inFlight && sys'.logfileNumber == sys.logfileNumber && sys'.logNumber == sys.logNumber
    && sys'.disk.logs == sys.disk.logs
  }

  lemma {:induction false} SameLoggedKeeps(sys: System, sys': System, o: Options)
    requires LogsOk(sys, o) && RecordsBounded(sys) && SameLogged(sys, sys')
    ensures LogsOk(sys', o) && RecordsBounded(sys')
    ensures sys'.logfileNumber in sys'.disk.logs && (sys'.db.imm.Some? ==> sys'.logNumber in sys'.disk.logs)
    ensures sys'.disk.manifest.logNumber == sys.disk.manifest.logNumber ==> Unsaved(sys') == Unsaved(sys)
  {
    hide Entries, Ordered, BatchSet;
  }

  lemma {:induction false} SnapshotKeeps(sys: System, ev: Event, o: Options)
    requires Consistent(sys, o) && Can(sys, ev, o) && (ev.Snapshot? || ev.Release?)
    ensures Consistent(Next(sys, ev, o), o)
  {
    hide Inv, TablesOk, TaskOk, ManifestOk, LogsOk, RecordsBounded, Unsaved, LastOf;
    var sys' := Next(sys, ev, o);
    var a := if ev.Snapshot? then GetSnapshot else ReleaseSnapshot(ev.at);
    StepKeepsInv(sys.db, a, o);
    SnapshotKeepsInv(sys.db, a, o);
    ForegroundKeeps(sys, sys', o);
    SameLoggedKeeps(sys, sys', o);
  }

  // ---------- Readers ----------

  lemma {:induction false} HoldKeeps(sys: System, ev: Event, o: Options)
    requires Consistent(sys, o) && Can(sys, ev, o) && (ev.Hold? || ev.Drop?)
    ensures Consistent(Next(sys, ev, o), o)
  {
    hide After, Enabled, LogsOk, RecordsBounded, AgesOk, SequencesOk, VersionOk, Unsaved, LastOf, AllEntries;
    var sys' := Next(sys, ev, o);
    SameLoggedKeeps(sys, sys', o);
  }

  // ---------- Tables ----------

  /** A version after background work has the old files and the new tables, no others. */
  lemma {:induction false} FilesAfter(st: State, a: Action, o: Options, l: nat, f: File)
    requires Inv(st) && Enabled(st, a, o) && (a.CompactMemTable? || a.Compact? || a.TrivialMove?)
    requires l < NUM_LEVELS && f in After(st, a, o).levels[l]
    ensures f in NewTables(st, a, o) || exists m :: 0 <= m < NUM_LEVELS && f in st.levels[m]
  {
    hide VersionOk, FilesOk, AllEntries, Edited, InputsOk, IsInput, Survivors, Written, IsFlushLevel, InOrder;
    match a
    case CompactMemTable(level, number) =>
      if NewTables(st, a, o) != [] {
        FlushedLevels(st.levels, st.nextFile, level, NewTables(st, a, o)[0]);
      }
    case Compact(level, in0, in1, oldest, input, outs) =>
      CompactKeepsInv(st, level, in0, in1, oldest, input, outs, o);
    case TrivialMove(level, g) =>
      MovedVersion(st.levels, st.nextFile, level, g);
      MovedFromLevel(st.levels, level, g);
  }

  lemma {:induction false} MovedFromLevel(levels: Levels, level: nat, g: File)
    requires level + 1 < NUM_LEVELS && InputsOk(levels, level, [g], [])
    ensures g in levels[level] && forall f | f in [g] :: f == g
  {
    assert g in [g];
  }

  lemma {:induction false} TablesAfter(st: State, a: Action, o: Options, tables: map<nat, File>)
    requires Inv(st) && Enabled(st, a, o) && (a.CompactMemTable? || a.Compact? || a.TrivialMove?)
    requires InTables(st.levels, tables) && FilesInTables(NewTables(st, a, o), tables)
    ensures InTables(After(st, a, o).levels, tables)
  {
    hide Inv, Enabled, After, NewTables;
    forall l, f | 0 <= l < NUM_LEVELS && f in After(st, a, o).levels[l]
        ensures f.number in tables && tables[f.number] == f {
      FilesAfter(st, a, o, l, f);
    }
  }

  /** A table with a new number changes no table that is there. */
  lemma {:induction false} NewTableKeeps(levels: Levels, tables: map<nat, File>, f: File, nextFile: nat)
    requires InTables(levels, tables) && nextFile <= f.number
    requires forall l, g | 0 <= l < NUM_LEVELS && g in levels[l] :: g.number < nextFile
    ensures InTables(levels, tables[f.number := f])
  {
  }

  lemma {:induction false} OneTable(tables: map<nat, File>, f: File)
    ensures WithTables(tables, [f]) == tables[f.number := f]
  {
    assert [f][..0] == [];
  }

  lemma {:induction false} VersionNumbers(st: State)
    requires Inv(st)
    ensures forall l, f | 0 <= l < NUM_LEVELS && f in st.levels[l] :: f.number < st.nextFile
  {
    hide InOrder, VersionOk;
  }

  // ---------- Background work ----------

  lemma {:induction false} StartFlushKeeps(sys: System, o: Options)
    requires Consistent(sys, o) && Can(sys, StartFlush, o)
    ensures Consistent(Next(sys, StartFlush, o), o)
  {
    hide Inv, LogsOk, RecordsBounded, Unsaved, LastOf, AllEntries, InTables, Enabled, After;
    SameLoggedKeeps(sys, Next(sys, StartFlush, o), o);
  }

  lemma {:induction false} BuildTableKeeps(sys: System, level: nat, o: Options)
    requires Consistent(sys, o) && Can(sys, BuildTable(level), o)
    ensures Consistent(Next(sys, BuildTable(level), o), o)
  {
    hide Inv, LogsOk, RecordsBounded, Unsaved, LastOf, AllEntries, InTables, IsFlushLevel, Edited;
    var sys' := Next(sys, BuildTable(level), o);
    SameLoggedKeeps(sys, sys', o);
    VersionNumbers(sys.db);
    var files := NewTables(sys.db, CompactMemTable(level, sys.task.number), o);
    if files != [] {
      var f := files[0];
      OneTable(sys.disk.tables, f);
      NewTableKeeps(sys.db.levels, sys.disk.tables, f, sys.db.nextFile);
      forall i | 0 <= i < |sys.held| ensures InTables(sys.held[i], sys'.disk.tables) {
        NewTableKeeps(sys.held[i], sys.disk.tables, f, sys.db.nextFile);
      }
    }
  }

  lemma {:induction false} StartMergeKeeps(sys: System, ev: Event, o: Options)
    requires Consistent(sys, o) && ev.StartMerge? && Can(sys, ev, o)
    ensures Consistent(Next(sys, ev, o), o)
  {
    hide Inv, LogsOk, RecordsBounded, Unsaved, LastOf, AllEntries, InTables, InputsOk, IsInput, Enabled, After;
    SameLoggedKeeps(sys, Next(sys, ev, o), o);
  }

  lemma {:induction false} WriteOutputKeeps(sys: System, f: File, o: Options)
    requires Consistent(sys, o) && Can(sys, WriteOutput(f), o)
    ensures Consistent(Next(sys, WriteOutput(f), o), o)
  {
    var sys' := Next(sys, WriteOutput(f), o);
    hide Inv, LogsOk, RecordsBounded, Unsaved, LastOf, AllEntries, Enabled, After, TablesOk, TaskOk, NumbersOk,
        ManifestOk;
    WriteOutputTables(sys, f, o);
    WriteOutputTask(sys, f, o);
    SameLoggedKeeps(sys, sys', o);
  }

  lemma {:induction false} WriteOutputTask(sys: System, f: File, o: Options)
    requires TaskOk(sys, o) && NumbersOk(sys) && ManifestOk(sys, o) && Can(sys, WriteOutput(f), o)
    ensures var sys' := Next(sys, WriteOutput(f), o); TaskOk(sys', o) && NumbersOk(sys') && ManifestOk(sys', o)
  {
    hide InputsOk, IsInput, FreshNumbers, NextNumber, AllEntries, Enabled, After;
    var outs, sys' := sys.task.action.outputs, Next(sys, WriteOutput(f), o);
    MoreOutputs(outs, f, sys.db.nextFile);
  }

  lemma {:induction false} MoreOutputs(outs: seq<File>, f: File, nextFile: nat)
    requires FreshNumbers(outs, nextFile) && NextNumber(outs, nextFile) <= f.number
    ensures FreshNumbers(outs + [f], nextFile) && NextNumber(outs + [f], nextFile) == f.number + 1
  {
  }

  lemma {:induction false} WriteOutputTables(sys: System, f: File, o: Options)
    requires Inv(sys.db) && TablesOk(sys, o) && TaskOk(sys, o) && NumbersOk(sys) && ManifestOk(sys, o)
        && Can(sys, WriteOutput(f), o)
    ensures TablesOk(Next(sys, WriteOutput(f), o), o)
  {
    hide Inv, AllEntries, InTables, InputsOk, IsInput, Enabled, After;
    var sys' := Next(sys, WriteOutput(f), o);
    VersionNumbers(sys.db);
    NewTableKeeps(sys.db.levels, sys.disk.tables, f, sys.db.nextFile);
    forall i | 0 <= i < |sys.held| ensures InTables(sys.held[i], sys'.disk.tables) {
      NewTableKeeps(sys.held[i], sys.disk.tables, f, sys.db.nextFile);
    }
    OutputNumbers(sys.task.action.outputs, sys.db.nextFile);
  }

  lemma {:induction false} OutputNumbers(outs: seq<File>, nextFile: nat)
    requires FreshNumbers(outs, nextFile)
    ensures forall f | f in outs :: f.number < NextNumber(outs, nextFile)
    ensures nextFile <= NextNumber(outs, nextFile)
  {
  }

  /** Background work ends below the next file number. */
  lemma {:induction false} TaskNumbers(sys: System, o: Options)
    requires TaskOk(sys, o) && NumbersOk(sys) && (sys.task.Flushed? || sys.task.Merging?)
        && Enabled(sys.db, sys.task.action, o)
    ensures (sys.task.action.CompactMemTable? || sys.task.action.Compact?)
    ensures After(sys.db, sys.task.action, o).nextFile <= sys.counter
  {
    hide IsFlushLevel, InputsOk, IsInput, Survivors, Written, FreshNumbers, Edited;
  }

  lemma {:induction false} RecordEditKeeps(sys: System, a: Action, o: Options)
    requires Consistent(sys, o) && !sys.task.Installing? && Enabled(sys.db, a, o)
    requires a.CompactMemTable? || a.Compact? || a.TrivialMove?
    requires After(sys.db, a, o).nextFile <= sys.counter && FilesInTables(NewTables(sys.db, a, o), sys.disk.tables)
    ensures Consistent(sys.(task := Installing(a), disk := Recorded(sys, a, o)), o)
  {
    hide Inv, LogsOk, RecordsBounded, Unsaved, LastOf, AllEntries, InTables, Enabled, After, NewTables;
    var sys' := sys.(task := Installing(a), disk := Recorded(sys, a, o));
    SameLoggedKeeps(sys, sys', o);
    TablesAfter(sys.db, a, o, sys.disk.tables);
    StepKeepsInv(sys.db, a, o);
    WithinSequence(sys.db, a, o);
    LastOfAtLeast(Unsaved(sys'), sys.db.lastSequence);
  }

  lemma {:induction false} WithinSequence(st: State, a: Action, o: Options)
    requires Enabled(st, a, o) && !a.Write? && Inv(After(st, a, o))
    ensures After(st, a, o).lastSequence == st.lastSequence
    ensures forall e | e in AllEntries(After(st, a, o).levels, 0) :: e.key.sequence <= st.lastSequence
  {
    hide AllEntries, VersionOk, FilesOk, Edited;
    var after := After(st, a, o);
    assert AllEntries(after.levels, 0) <= All(after);
  }

  lemma {:induction false} LogEditKeeps(sys: System, o: Options)
    requires Consistent(sys, o) && Can(sys, LogEdit, o)
    ensures Consistent(Next(sys, LogEdit, o), o)
  {
    hide Inv, LogsOk, RecordsBounded, Unsaved, LastOf, ManifestOk, Enabled, After;
    assert FilesInTables(NewTables(sys.db, sys.task.action, o), sys.disk.tables);
    TaskNumbers(sys, o);
    hide TablesOk, TaskOk, NumbersOk;
    RecordEditKeeps(sys, sys.task.action, o);
  }

  lemma {:induction false} LogMoveKeeps(sys: System, level: nat, f: File, o: Options)
    requires Consistent(sys, o) && Can(sys, LogMove(level, f), o)
    ensures Consistent(Next(sys, LogMove(level, f), o), o)
  {
    hide Inv, LogsOk, RecordsBounded, Unsaved, LastOf, ManifestOk, TablesOk, TaskOk, Edited, InputsOk;
    RecordEditKeeps(sys, TrivialMove(level, f), o);
  }

  lemma {:induction false} InstallKeeps(sys: System, o: Options)
    requires Consistent(sys, o) && Can(sys, Install, o)
    ensures Consistent(Next(sys, Install, o), o)
  {
    hide Inv, LogsOk, RecordsBounded, Unsaved, LastOf, AllEntries, InTables, Enabled, After, NewTables;
    var sys' := Next(sys, Install, o);
    var a := sys.task.action;
    StepKeepsInv(sys.db, a, o);
    InstallLogs(sys, o);
    NextFileGrows(sys.db, a, o);
  }

  lemma {:induction false} NextFileGrows(st: State, a: Action, o: Options)
    requires Enabled(st, a, o)
    ensures st.nextFile <= After(st, a, o).nextFile
    ensures a.CompactMemTable? || a.Compact? || a.TrivialMove? ==> After(st, a, o).lastSequence == st.lastSequence
  {
    hide Edited, InputsOk, IsInput, Survivors, Written, IsFlushLevel;
  }

  /** Once a flush is installed only the current log is needed; it holds the memtable. */
  lemma {:induction false} InstallLogs(sys: System, o: Options)
    requires LogsOk(sys, o) && RecordsBounded(sys) && Can(sys, Install, o) && TaskOk(sys, o)
    requires sys.disk.manifest.logNumber == EditLogNumber(sys, sys.task.action)
    ensures LogsOk(Next(sys, Install, o), o) && RecordsBounded(Next(sys, Install, o))
    ensures Unsaved(Next(sys, Install, o)) == Unsaved(sys)
  {
    hide Entries, BatchSet, Edited, Enabled, Ordered;
    FlushNeedsImm(sys, o);
    var sys' := Next(sys, Install, o);
    InstalledMemory(sys.db, sys.task.action, o);
    hide After;
    if sys.task.action.CompactMemTable? {
      OrderedSuffix(sys.disk.logs[sys.logNumber], sys.disk.logs[sys.logfileNumber]);
      assert LoggedRecords(sys') == sys.disk.logs[sys.logfileNumber];
    } else {
      assert LoggedRecords(sys') == LoggedRecords(sys);
    }
  }

  lemma {:induction false} InstalledMemory(st: State, a: Action, o: Options)
    requires Enabled(st, a, o) && (a.CompactMemTable? || a.Compact? || a.TrivialMove?)
    ensures var after := After(st, a, o);
            && after.mem == st.mem && after.lastSequence == st.lastSequence
            && after.imm == (if a.CompactMemTable? then None else st.imm)
            && forall ops | Enabled(st, Write(ops), o) :: Enabled(after, Write(ops), o)
  {
    hide Edited, InputsOk, IsInput, Survivors, Written, IsFlushLevel, FreshNumbers;
  }

  lemma {:induction false} OrderedSuffix(a: seq<Logged>, b: seq<Logged>)
    requires Ordered(a + b)
    ensures Ordered(b)
  {
    forall i, j | 0 <= i < j < |b| ensures b[i].first + |b[i].ops| <= b[j].first {
      assert (a + b)[|a| + i] == b[i] && (a + b)[|a| + j] == b[j];
    }
  }

  // ---------- Removing obsolete files ----------

  /** Removal keeps every log that a restart would replay, every table of a version in use, and
      every table being written; and it removes everything else. */
  lemma {:induction false} RemovalIsSafe(sys: System, o: Options)
    requires Consistent(sys, o) && Can(sys, DeleteObsoleteFiles, o)
    ensures var disk := Next(sys, DeleteObsoleteFiles, o).disk;
            && (forall n | n in sys.disk.logs && NeedsLog(sys.disk.manifest.logNumber, n) ::
                n in disk.logs && disk.logs[n] == sys.disk.logs[n])
            && (forall l, f | 0 <= l < NUM_LEVELS && (f in sys.db.levels[l] || f in disk.manifest.levels[l]) ::
                  f.number in disk.tables && disk.tables[f.number] == f)
            && (forall i, l, f | 0 <= i < |sys.held| && 0 <= l < NUM_LEVELS && f in sys.held[i][l] ::
                  f.number in disk.tables && disk.tables[f.number] == f)
            && (forall n | n in sys.pending && n in sys.disk.tables ::
                n in disk.tables && disk.tables[n] == sys.disk.tables[n])
            && (forall n | n in disk.logs :: NeedsLog(sys.logNumber, n))
                && (forall n | n in disk.tables :: InUse(sys, n))
  {
    hide Inv, LogsOk, RecordsBounded, Unsaved, LastOf, AllEntries, NumbersOk, TaskOk, Enabled, After;
  }

  lemma {:induction false} RemovalKeeps(sys: System, o: Options)
    requires Consistent(sys, o) && Can(sys, DeleteObsoleteFiles, o)
    ensures Consistent(Next(sys, DeleteObsoleteFiles, o), o)
  {
    hide Inv, RecordsBounded, Unsaved, LastOf, AllEntries, Enabled, After, LogsOk, InUse;
    var sys' := Next(sys, DeleteObsoleteFiles, o);
    RemovalIsSafe(sys, o);
    RemovalLogs(sys, o);
  }

  lemma {:induction false} RemovalLogs(sys: System, o: Options)
    requires LogsOk(sys, o) && RecordsBounded(sys) && Can(sys, DeleteObsoleteFiles, o)
    ensures LogsOk(Next(sys, DeleteObsoleteFiles, o), o) && RecordsBounded(Next(sys, DeleteObsoleteFiles, o))
    ensures Unsaved(Next(sys, DeleteObsoleteFiles, o)) == Unsaved(sys)
  {
    hide Entries, Ordered, BatchSet, Enabled, InUse;
  }
}
