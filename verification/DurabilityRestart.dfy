/** Restarting after a crash finds everything that was acknowledged. */
module DurabilityRestart {
  import opened Format
  import opened Versions
  import opened VersionBuilder
  import opened CompactionInputs
  import opened CompactionWork
  import opened Database
  import opened DatabaseInvariant
  import opened DatabaseRuns
  import opened Durability
  import opened DurabilitySteps

  // ---------- Replaying records ----------

  lemma {:induction false} EntriesConcat(a: seq<Logged>, b: seq<Logged>)
    ensures Entries(a + b) == Entries(a) + Entries(b)
    decreases |b|
  {
    hide BatchSet, Entries;
    if b == [] {
      assert a + b == a;
      NoEntries();
    } else {
      var n := |b| - 1;
      EntriesConcat(a, b[..n]);
      EntriesSnoc(a + b[..n], b[n]);
      EntriesSnoc(b[..n], b[n]);
      assert a + b[..n] + [b[n]] == a + b && b[..n] + [b[n]] == b;
    }
  }

  lemma {:induction false} NoEntries()
    ensures Entries([]) == {}
  {
  }

  /** Entries of later records are newer. */
  lemma {:induction false} OrderedIsNewer(a: seq<Logged>, b: seq<Logged>)
    requires Ordered(a + b)
    ensures Newer(Entries(b), Entries(a)) && Ordered(a) && Ordered(b)
    ensures forall y, j | y in Entries(a) && 0 <= j < |b| :: y.key.sequence < b[j].first
  {
    hide BatchSet;
    OrderedSuffix(a, b);
    forall i, j | 0 <= i < j < |a| ensures a[i].first + |a[i].ops| <= a[j].first {
      assert (a + b)[i] == a[i] && (a + b)[j] == a[j];
    }
    forall y, j | y in Entries(a) && 0 <= j < |b| ensures y.key.sequence < b[j].first {
      var i :| 0 <= i < |a| && y in BatchSet(a[i].ops, a[i].first);
      assert (a + b)[i] == a[i] && (a + b)[|a| + j] == b[j];
      BatchSequences(a[i].ops, a[i].first);
    }
    forall x, y | x in Entries(b) && y in Entries(a) && x.key.user == y.key.user
        ensures x.key.sequence > y.key.sequence {
      var j :| 0 <= j < |b| && x in BatchSet(b[j].ops, b[j].first);
      BatchSequences(b[j].ops, b[j].first);
    }
  }

  /** Replaying ordered records builds the sorted memtable of their entries. */
  lemma {:induction false} ReplayHolds(records: seq<Logged>)
    requires Ordered(records)
    ensures Sorted(Replayed(records)) && SetOf(Replayed(records)) == Entries(records)
    decreases |records|
  {
    hide Entries, Ordered, Sorted, InsertBatch, BatchSet;
    if records == [] {
      NoEntries();
      EmptyRunSorted();
    } else {
      var n := |records| - 1;
      var front, last := records[..n], records[n];
      assert records == front + [last];
      OrderedIsNewer(front, [last]);
      ReplayHolds(front);
      forall x | x in Replayed(front) ensures x.key.sequence < last.first {
        assert x in SetOf(Replayed(front)) && [last][0] == last;
      }
      InsertBatchHolds(Replayed(front), last.ops, last.first);
      EntriesSnoc(front, last);
    }
  }

  lemma {:induction false} EmptyRunSorted()
    ensures Sorted([]) && SetOf<Entry>([]) == {}
  {
  }

  // ---------- Recovered tables ----------

  ghost predicate Growing(numbers: seq<nat>, from: nat) {
    && (forall i | 0 <= i < |numbers| :: from <= numbers[i])
    && forall i, j | 0 <= i < j < |numbers| :: numbers[i] < numbers[j]
  }

  /** The number after those used. */
  function Past(numbers: seq<nat>, from: nat): nat {
    if numbers == [] then from else numbers[|numbers| - 1] + 1
  }

  lemma {:induction false} GrowingFront(numbers: seq<nat>, from: nat)
    requires Growing(numbers, from) && numbers != []
    ensures Growing(numbers[..|numbers| - 1], from) && Past(numbers[..|numbers| - 1], from) <= numbers[|numbers| - 1]
  {
  }

  /** Turning the replayed records into tables at level 0 gives a version with the old entries and
      those of the records. */
  lemma {:induction false} Recovers(levels: Levels, chunks: seq<seq<Logged>>, numbers: seq<nat>, nextFile: nat,
      o: Options)
    requires VersionOk(levels) && FilesOk(levels, nextFile) && |numbers| == |chunks| && Growing(numbers, nextFile)
    requires Ordered(Concat(chunks)) && Newer(Entries(Concat(chunks)), AllEntries(levels, 0))
    requires Distinct(AllEntries(levels, 0) + Entries(Concat(chunks)))
    ensures var r := WithRecovered(levels, chunks, numbers, o);
            && VersionOk(r) && FilesOk(r, Past(numbers, nextFile))
            && AllEntries(r, 0) == AllEntries(levels, 0) + Entries(Concat(chunks))
    decreases |chunks|
  {
    hide VersionOk, FilesOk, AllEntries, Entries, Ordered, Sorted, Newer, Distinct, Edited, Growing, Replayed;
    if chunks == [] {
      NoEntries();
    } else {
      var n := |chunks| - 1;
      var front, chunk := chunks[..n], chunks[n];
      EntriesConcat(Concat(front), chunk);
      OrderedIsNewer(Concat(front), chunk);
      NewerMonotone(Entries(Concat(chunks)), AllEntries(levels, 0), Entries(Concat(front)), AllEntries(levels, 0));
      NewerMonotone(Entries(Concat(chunks)), AllEntries(levels, 0), Entries(chunk), AllEntries(levels, 0));
      DistinctSubset(AllEntries(levels, 0) + Entries(Concat(chunks)), AllEntries(levels, 0) + Entries(Concat(front)));
      GrowingFront(numbers, nextFile);
      Recovers(levels, front, numbers[..n], nextFile, o);
      var before := WithRecovered(levels, front, numbers[..n], o);
      ReplayHolds(chunk);
      var mem := Replayed(chunk);
      MoreNumbers(before, Past(numbers[..n], nextFile), numbers[n]);
      if mem == [] {
        EmptyRunSorted();
        MoreNumbers(before, numbers[n], numbers[n] + 1);
        assert AllEntries(levels, 0) + (Entries(Concat(front)) + {}) == AllEntries(levels, 0) + Entries(Concat(front));
      } else {
        var f: File := Table(numbers[n], o.builtSize(mem), mem);
        NewerThanBoth(Entries(chunk), AllEntries(levels, 0), Entries(Concat(front)));
        assert AllEntries(before, 0) + SetOf(f.entries) == AllEntries(levels, 0) + Entries(Concat(chunks));
        FlushedVersion(before, numbers[n], 0, f);
      }
    }
  }

  lemma {:induction false} NewerThanBoth(a: set<Entry>, b: set<Entry>, c: set<Entry>)
    requires Newer(a, b) && Newer(a, c)
    ensures Newer(a, b + c)
  {
  }

  /** All files of the levels have lower numbers, and each level is in order. */
  ghost predicate Below(levels: Levels, number: nat) {
    forall l | 0 <= l < NUM_LEVELS :: InOrder(levels[l]) && forall f | f in levels[l] :: f.number < number
  }

  /** The recovered version has the old files and the recovered tables, which have new numbers. */
  lemma {:induction false} RecoveredFiles(levels: Levels, chunks: seq<seq<Logged>>, numbers: seq<nat>, nextFile: nat,
      o: Options)
    requires |numbers| == |chunks| && Growing(numbers, nextFile) && Below(levels, nextFile)
    ensures var r, files := WithRecovered(levels, chunks, numbers, o), RecoveredTables(chunks, numbers, o);
            && FreshNumbers(files, nextFile) && NextNumber(files, nextFile) <= Past(numbers, nextFile)
            && (forall l, f | 0 <= l < NUM_LEVELS && f in r[l] :: f in levels[l] || f in files)
            && Below(r, Past(numbers, nextFile))
    decreases |chunks|
  {
    hide Sorted, Edited, Growing, Replayed, Below;
    if chunks != [] {
      var n := |chunks| - 1;
      GrowingFront(numbers, nextFile);
      RecoveredFiles(levels, chunks[..n], numbers[..n], nextFile, o);
      var before, mem := WithRecovered(levels, chunks[..n], numbers[..n], o), Replayed(chunks[n]);
      BelowMore(before, Past(numbers[..n], nextFile), numbers[n]);
      if mem != [] && Sorted(mem) {
        AddedAtLevel0(before, Table(numbers[n], o.builtSize(mem), mem));
      } else {
        BelowMore(before, numbers[n], numbers[n] + 1);
      }
    }
  }

  lemma {:induction false} BelowMore(levels: Levels, a: nat, b: nat)
    requires Below(levels, a) && a <= b
    ensures Below(levels, b)
  {
  }

  lemma {:induction false} AddedAtLevel0(levels: Levels, f: File)
    requires Below(levels, f.number)
    ensures var after := Edited(levels, FlushEdit(0, f));
            Below(after, f.number + 1) && forall l, g | 0 <= l < NUM_LEVELS && g in after[l] :: g in levels[l] || g == f
  {
    hide Edited, InOrder;
    var e := FlushEdit(0, f);
    forall l | 1 <= l < NUM_LEVELS ensures Edited(levels, e)[l] == levels[l] {
      UntouchedLevel(levels, e, l);
    }
    EditHolds(levels, e, 0);
  }

  lemma {:induction false} TablesWritten(tables: map<nat, File>, files: seq<File>, nextFile: nat)
    requires FreshNumbers(files, nextFile)
    ensures FilesInTables(files, WithTables(tables, files))
    ensures forall n | n in tables && n < nextFile ::
        n in WithTables(tables, files) && WithTables(tables, files)[n] == tables[n]
    decreases |files|
  {
    if files != [] {
      var k := |files| - 1;
      TablesWritten(tables, files[..k], nextFile);
      forall f | f in files ensures f.number in WithTables(tables, files) && WithTables(tables, files)[f.number] == f {
        var i :| 0 <= i < |files| && files[i] == f;
        if i < k {
          assert files[..k][i] == f;
        }
      }
    }
  }

  // ---------- What is replayed ----------

  /** A restart replays the logs of the memtables, in order. */
  lemma {:induction false} ReplaysUnsaved(sys: System, logs: seq<nat>, o: Options)
    requires Consistent(sys, o) && LogsToReplay(sys.disk, logs)
    ensures Contents(sys.disk, logs) == Unsaved(sys)
    ensures logs == [sys.logfileNumber]
        || (logs == [sys.logNumber, sys.logfileNumber] && sys.logNumber != sys.logfileNumber)
  {
    hide Inv, RecordsBounded, TablesOk, After, AllEntries, Entries, Ordered, LastOf;
    FlushNeedsImm(sys, o);
    var older, current := sys.logNumber, sys.logfileNumber;
    if sys.disk.manifest.logNumber == current {
      SameGrowing(logs, [current]);
      assert seq(|logs|, i requires 0 <= i < |logs| => sys.disk.logs[logs[i]]) == [sys.disk.logs[current]];
      ConcatOne(sys.disk.logs[current]);
    } else {
      SameGrowing(logs, [older, current]);
      assert seq(|logs|, i requires 0 <= i < |logs| => sys.disk.logs[logs[i]])
          == [sys.disk.logs[older], sys.disk.logs[current]];
      ConcatTwo(sys.disk.logs[older], sys.disk.logs[current]);
    }
  }

  /** Leftover logs come last, and are empty. */
  lemma {:induction false} LeftoversAddNothing(disk: Disk, left: Leftovers, logs: seq<nat>, n: nat)
    requires CanBeLeft(disk, left) && LogsToReplay(WithLeftovers(disk, left), logs) && n <= |logs|
    requires forall m | m in logs[n..] :: m in left.logs
    ensures forall m | m in logs[..n] :: m in WithLeftovers(disk, left).logs
    ensures Contents(WithLeftovers(disk, left), logs) == Contents(WithLeftovers(disk, left), logs[..n])
    decreases |logs| - n
  {
    hide CanBeLeft, LogsToReplay;
    var d := WithLeftovers(disk, left);
    AllOnDisk(d, logs);
    if n == |logs| {
      assert logs[..n] == logs;
    } else {
      assert forall m | m in logs[n + 1..] :: m in logs[n..];
      LeftoversAddNothing(disk, left, logs, n + 1);
      assert logs[n] in logs[n..];
      ContentsSnoc(d, logs[..n], logs[n]);
      assert logs[..n + 1] == logs[..n] + [logs[n]];
      assert Contents(d, logs[..n]) + [] == Contents(d, logs[..n]);
    }
  }

  lemma {:induction false} AllOnDisk(disk: Disk, logs: seq<nat>)
    requires LogsToReplay(disk, logs)
    ensures forall m | m in logs :: m in disk.logs
  {
  }

  lemma {:induction false} ContentsSnoc(disk: Disk, logs: seq<nat>, n: nat)
    requires n in disk.logs && forall m | m in logs :: m in disk.logs
    ensures forall m | m in logs + [n] :: m in disk.logs
    ensures Contents(disk, logs + [n]) == Contents(disk, logs) + disk.logs[n]
  {
    var more := logs + [n];
    var parts := seq(|more|, i requires 0 <= i < |more| => disk.logs[more[i]]);
    assert parts[..|logs|] == seq(|logs|, i requires 0 <= i < |logs| => disk.logs[logs[i]]);
  }

  /** The logs of the crashed store, among those to replay. */
  lemma {:induction false} OldLogsFirst(disk: Disk, left: Leftovers, logs: seq<nat>) returns (n: nat)
    requires CanBeLeft(disk, left) && LogsToReplay(WithLeftovers(disk, left), logs)
    ensures n <= |logs| && LogsToReplay(disk, logs[..n]) && forall m | m in logs[n..] :: m in left.logs
  {
    n := 0;
    while n < |logs| && logs[n] !in left.logs
      invariant n <= |logs| && forall i | 0 <= i < n :: logs[i] !in left.logs
    {
      n := n + 1;
    }
    forall i | n <= i < |logs| ensures logs[i] in left.logs {
      assert logs[i] in logs && logs[n] in left.logs;
    }
    forall m ensures m in logs[..n] <==> m in disk.logs && NeedsLog(disk.manifest.logNumber, m) {
      if m in disk.logs && NeedsLog(disk.manifest.logNumber, m) {
        assert m in logs;
        var i :| 0 <= i < |logs| && logs[i] == m;
      }
    }
  }

  /** So a restart replays what the crashed store had logged, however many recoveries failed before. */
  lemma {:induction false} ReplaysUnsavedWith(sys: System, left: Leftovers, logs: seq<nat>, o: Options)
    requires Consistent(sys, o) && CanBeLeft(sys.disk, left) && LogsToReplay(WithLeftovers(sys.disk, left), logs)
    ensures Contents(WithLeftovers(sys.disk, left), logs) == Unsaved(sys)
  {
    hide Consistent, CanBeLeft, LogsToReplay, Unsaved, Concat;
    var n := OldLogsFirst(sys.disk, left, logs);
    ReplaysUnsaved(sys, logs[..n], o);
    LeftoversAddNothing(sys.disk, left, logs, n);
    AllOnDisk(sys.disk, logs[..n]);
    SameLogs(sys.disk, left, logs[..n]);
  }

  lemma {:induction false} SameLogs(disk: Disk, left: Leftovers, logs: seq<nat>)
    requires CanBeLeft(disk, left) && forall m | m in logs :: m in disk.logs
    ensures forall m | m in logs :: m in WithLeftovers(disk, left).logs
    ensures Contents(WithLeftovers(disk, left), logs) == Contents(disk, logs)
  {
    hide Concat;
    var d := WithLeftovers(disk, left);
    assert forall m | m in logs :: d.logs[m] == disk.logs[m];
    assert seq(|logs|, i requires 0 <= i < |logs| => d.logs[logs[i]])
        == seq(|logs|, i requires 0 <= i < |logs| => disk.logs[logs[i]]);
  }

  lemma {:induction false} ConcatOne<T>(a: seq<T>)
    ensures Concat([a]) == a
  {
    var none: seq<seq<T>> := [a][..0];
    assert Concat(none) + a == a;
  }

  lemma {:induction false} ConcatTwo<T>(a: seq<T>, b: seq<T>)
    ensures Concat([a, b]) == a + b
  {
    ConcatOne(a);
    assert [a, b][..1] == [a];
  }

  lemma {:induction false} FrontOfGrowing(a: seq<nat>, front: seq<nat>, last: nat)
    requires Growing(a, 0) && a == front + [last]
    ensures Growing(front, 0) && last in a && (forall x | x in a :: x <= last)
        && forall x :: x in front <==> x in a && x < last
  {
    assert forall i | 0 <= i < |front| :: front[i] == a[i];
    assert a[|front|] == last;
  }

  lemma {:induction false} FirstIsIn(a: seq<nat>)
    ensures a != [] ==> exists x :: x in a
  {
    if a != [] {
      assert a[0] in a;
    }
  }

  lemma {:induction false} SameGrowing(a: seq<nat>, b: seq<nat>)
    requires Growing(a, 0) && Growing(b, 0) && forall n :: n in a <==> n in b
    ensures a == b
    decreases |a|
  {
    hide Growing;
    FirstIsIn(a);
    FirstIsIn(b);
    if a != [] && b != [] {
      var frontA, frontB, last := a[..|a| - 1], b[..|b| - 1], a[|a| - 1];
      FrontOfGrowing(a, frontA, last);
      FrontOfGrowing(b, frontB, b[|b| - 1]);
      assert last == b[|b| - 1];
      SameGrowing(frontA, frontB);
    }
  }

  /** The manifest and the logs together hold the store and the batch in flight. */
  lemma {:induction false} DiskHoldsStore(sys: System, o: Options)
    requires Consistent(sys, o)
    ensures Inv(Settled(sys, o)) && Settled(sys, o).lastSequence == sys.db.lastSequence
    ensures AllEntries(sys.disk.manifest.levels, 0) + Entries(Unsaved(sys)) == All(Settled(sys, o))
        + Batch(sys.db, sys.inFlight)
    ensures SetOf(Settled(sys, o).mem) + ImmSet(Settled(sys, o)) + Batch(sys.db, sys.inFlight) == Entries(Unsaved(sys))
  {
    hide Inv, RecordsBounded, TablesOk, AllEntries, Entries, Ordered, LastOf, Batch, Enabled, After;
    var st := Settled(sys, o);
    SettledMemory(sys, o);
    if sys.db.imm.Some? {
      EntriesConcat(sys.disk.logs[sys.logNumber], sys.disk.logs[sys.logfileNumber]);
    } else {
      assert LoggedRecords(sys) == sys.disk.logs[sys.logfileNumber];
    }
  }

  lemma {:induction false} SettledMemory(sys: System, o: Options)
    requires Inv(sys.db) && TaskOk(sys, o)
    ensures var st := Settled(sys, o);
            && Inv(st) && st.lastSequence == sys.db.lastSequence && st.mem == sys.db.mem
            && (if sys.task.Installing? && sys.task.action.CompactMemTable? then sys.db.imm.Some? && st.imm.None?
                else st.imm == sys.db.imm)
  {
    hide Inv, Edited, InputsOk, IsInput, Survivors, Written, IsFlushLevel, FreshNumbers;
    if sys.task.Installing? {
      StepKeepsInv(sys.db, sys.task.action, o);
    }
  }

  /** A batch in flight is newer than the store. */
  lemma {:induction false} BatchIsNewer(st: State, sys: System, o: Options)
    requires Inv(st) && st.lastSequence == sys.db.lastSequence && LogsOk(sys, o)
    ensures Distinct(All(st) + Batch(sys.db, sys.inFlight)) && Newer(Batch(sys.db, sys.inFlight), All(st))
  {
    hide VersionOk, FilesOk, AllEntries, Entries, Ordered, BatchSet, All, AgesOk;
    if sys.inFlight.Some? && sys.db.lastSequence + |sys.inFlight.value| <= MAX_SEQUENCE {
      BatchSequences(sys.inFlight.value, sys.db.lastSequence + 1);
      FreshEntries(All(st), Batch(sys.db, sys.inFlight), st.lastSequence);
    } else {
      assert All(st) + {} == All(st);
    }
  }

  /** What is replayed is newer than what the manifest lists. */
  lemma {:induction false} UnsavedIsNewer(sys: System, o: Options)
    requires Consistent(sys, o)
    ensures Newer(Entries(Unsaved(sys)), AllEntries(sys.disk.manifest.levels, 0))
    ensures Distinct(AllEntries(sys.disk.manifest.levels, 0) + Entries(Unsaved(sys)))
    ensures VersionOk(sys.disk.manifest.levels) && FilesOk(sys.disk.manifest.levels, sys.disk.manifest.nextFile)
  {
    var st := Settled(sys, o);
    DiskHoldsStore(sys, o);
    hide LogsOk, RecordsBounded, TablesOk, AllEntries, Entries, Unsaved, LastOf, Batch, Enabled, After, VersionOk,
        FilesOk, TaskOk, Settled, Newer, Distinct;
    assert LogsOk(sys, o);
    BatchIsNewer(st, sys, o);
    var tables := AllEntries(sys.disk.manifest.levels, 0);
    NewerMonotone(Batch(sys.db, sys.inFlight), All(st), Batch(sys.db, sys.inFlight), tables);
    NewerUnion(SetOf(st.mem), ImmSet(st), tables);
    NewerUnion(SetOf(st.mem) + ImmSet(st), Batch(sys.db, sys.inFlight), tables);
    MoreNumbers(st.levels, st.nextFile, sys.disk.manifest.nextFile);
  }

  // ---------- Sequence numbers ----------

  lemma {:induction false} EntriesWithinLast(records: seq<Logged>, m: SequenceNumber)
    ensures forall e | e in Entries(records) :: e.key.sequence <= LastOf(records, m)
    decreases |records|
  {
    hide BatchSet, Entries, LastOf;
    if records == [] {
      NoEntries();
    } else {
      var n := |records| - 1;
      EntriesWithinLast(records[..n], m);
      EntriesSnoc(records[..n], records[n]);
      LastOfSnoc(records[..n], records[n], m);
      assert records[..n] + [records[n]] == records;
      BatchSequences(records[n].ops, records[n].first);
    }
  }

  lemma {:induction false} LastOfBounded(records: seq<Logged>, m: SequenceNumber, bound: nat)
    requires m <= bound && forall i | 0 <= i < |records| :: records[i].first + |records[i].ops| <= bound + 1
    ensures LastOf(records, m) <= bound
    decreases |records|
  {
    if records != [] {
      LastOfBounded(records[..|records| - 1], m, bound);
    }
  }

  lemma {:induction false} UnsavedBounded(sys: System, o: Options)
    requires Consistent(sys, o)
    ensures LastOf(Unsaved(sys), sys.disk.manifest.lastSequence) < MAX_SEQUENCE
  {
    hide TablesOk, AllEntries, Entries, Ordered, LastOf, After, VersionOk, FilesOk, AgesOk;
    var bound := sys.db.lastSequence + if sys.inFlight.Some? then |sys.inFlight.value| else 0;
    var records := Unsaved(sys);
    forall i | 0 <= i < |records| ensures records[i].first + |records[i].ops| <= bound + 1 {
      var current := sys.disk.logs[sys.logfileNumber];
      if records != current {
        var older := if sys.db.imm.Some? then sys.disk.logs[sys.logNumber] else [];
        assert records == older + current;
        assert i >= |older| ==> records[i] == current[i - |older|];
      }
    }
    LastOfBounded(records, sys.disk.manifest.lastSequence, bound);
  }

  // ---------- The restart ----------

  /** What a restart needs, and what it leads to. */
  lemma {:induction false} RestartParts(sys: System, ev: Event, o: Options)
    requires ev.Restart? && Can(sys, ev, o)
    ensures var disk, m := WithLeftovers(sys.disk, ev.left), sys.disk.manifest;
            && CanBeLeft(sys.disk, ev.left) && LogsToReplay(disk, ev.logs)
                && Concat(ev.chunks) == Contents(disk, ev.logs)
            && |ev.numbers| == |ev.chunks| && Growing(ev.numbers, m.nextFile + 1)
                && Past(ev.numbers, m.nextFile + 1) <= ev.newLog
            && disk.manifest == m
            && var sys' := Next(sys, ev, o);
               && sys'.db == State([], None, WithRecovered(m.levels, ev.chunks, ev.numbers, o),
                   LastOf(Contents(disk, ev.logs), m.lastSequence), [], ev.newLog)
               && sys'.disk.tables == WithTables(disk.tables, RecoveredTables(ev.chunks, ev.numbers, o))
  {
    hide Concat, Contents, LogsToReplay, WithRecovered, RecoveredTables, WithTables, CanBeLeft, LastOf, Enabled, After;
  }

  /** A restart, whenever the crash came, finds the store as it was, and a batch that was logged but
      not yet acknowledged; and the new state is consistent. */
  lemma {:induction false} RestartRecovers(sys: System, ev: Event, o: Options)
    requires Consistent(sys, o) && ev.Restart? && Can(sys, ev, o)
    ensures var db := Next(sys, ev, o).db;
            && Inv(db) && All(db) == All(Settled(sys, o)) + Batch(sys.db, sys.inFlight)
            && db.lastSequence >= sys.db.lastSequence
  {
    var m, records := sys.disk.manifest, Unsaved(sys);
    hide Consistent, AllEntries, Entries, Unsaved, LastOf, Batch, VersionOk, FilesOk, Settled, Newer, Distinct, Inv,
        Concat, Contents, LogsToReplay, All, WithRecovered, Ordered, RecoveredTables, WithTables, WithLeftovers,
        CanBeLeft;
    RestartParts(sys, ev, o);
    hide Can, Next;
    ReplaysUnsavedWith(sys, ev.left, ev.logs, o);
    UnsavedFacts(sys, o);
    RecoveredState(m, records, ev.chunks, ev.numbers, ev.newLog, o);
  }

  lemma {:induction false} UnsavedFacts(sys: System, o: Options)
    requires Consistent(sys, o)
    ensures sys.logfileNumber in sys.disk.logs && (sys.db.imm.Some? ==> sys.logNumber in sys.disk.logs)
    ensures var m, records := sys.disk.manifest, Unsaved(sys);
            && Ordered(records) && VersionOk(m.levels) && FilesOk(m.levels, m.nextFile)
            && Newer(Entries(records), AllEntries(m.levels, 0)) && Distinct(AllEntries(m.levels, 0) + Entries(records))
            && sys.db.lastSequence <= LastOf(records, m.lastSequence) < MAX_SEQUENCE
            && (forall e | e in AllEntries(m.levels, 0) :: e.key.sequence <= m.lastSequence)
            && AllEntries(m.levels, 0) + Entries(records) == All(Settled(sys, o)) + Batch(sys.db, sys.inFlight)
  {
    UnsavedOrdered(sys, o);
    hide Consistent, AllEntries, Entries, Unsaved, LastOf, Batch, VersionOk, FilesOk, Settled, Newer, Distinct, Inv,
        All, Ordered;
    DiskHoldsStore(sys, o);
    UnsavedIsNewer(sys, o);
    UnsavedBounded(sys, o);
    ManifestBounded(sys, o);
  }

  lemma {:induction false} ManifestBounded(sys: System, o: Options)
    requires Consistent(sys, o)
    ensures forall e | e in AllEntries(sys.disk.manifest.levels, 0) :: e.key.sequence <= sys.disk.manifest.lastSequence
    ensures sys.db.lastSequence <= LastOf(Unsaved(sys), sys.disk.manifest.lastSequence)
  {
    hide LogsOk, RecordsBounded, TablesOk, TaskOk, NumbersOk, AllEntries, Inv, LastOf, Settled;
  }

  lemma {:induction false} RecoveredState(m: Manifest, records: seq<Logged>, chunks: seq<seq<Logged>>,
      numbers: seq<nat>, newLog: nat, o: Options)
    requires Concat(chunks) == records && |numbers| == |chunks| && Ordered(records)
    requires VersionOk(m.levels) && FilesOk(m.levels, m.nextFile) && Newer(Entries(records), AllEntries(m.levels, 0))
    requires Distinct(AllEntries(m.levels, 0) + Entries(records)) && LastOf(records, m.lastSequence) < MAX_SEQUENCE
    requires forall e | e in AllEntries(m.levels, 0) :: e.key.sequence <= m.lastSequence
    requires Growing(numbers, m.nextFile + 1) && Past(numbers, m.nextFile + 1) <= newLog
    ensures var db := State([], None, WithRecovered(m.levels, chunks, numbers, o), LastOf(records, m.lastSequence), [],
        newLog);
            Inv(db) && All(db) == AllEntries(m.levels, 0) + Entries(records)
  {
    hide AllEntries, Entries, LastOf, VersionOk, FilesOk, Newer, Distinct, Inv, Concat, All, WithRecovered, Ordered,
        Growing;
    MoreNumbers(m.levels, m.nextFile, m.nextFile + 1);
    Recovers(m.levels, chunks, numbers, m.nextFile + 1, o);
    var db := State([], None, WithRecovered(m.levels, chunks, numbers, o), LastOf(records, m.lastSequence), [], newLog);
    MoreNumbers(db.levels, Past(numbers, m.nextFile + 1), newLog);
    EntriesWithinLast(records, m.lastSequence);
    LastOfAtLeast(records, m.lastSequence);
    TablesOnly(db);
  }

  lemma {:induction false} UnsavedOrdered(sys: System, o: Options)
    requires Consistent(sys, o)
    ensures sys.logfileNumber in sys.disk.logs && (sys.db.imm.Some? ==> sys.logNumber in sys.disk.logs)
    ensures Ordered(Unsaved(sys))
  {
    hide RecordsBounded, TablesOk, AllEntries, Entries, LastOf, After, VersionOk, FilesOk, AgesOk, Inv;
    if sys.db.imm.Some? {
      OrderedSuffix(sys.disk.logs[sys.logNumber], sys.disk.logs[sys.logfileNumber]);
    } else {
      assert LoggedRecords(sys) == sys.disk.logs[sys.logfileNumber];
    }
  }

  /** A store with empty memtables is what its tables hold. */
  lemma {:induction false} TablesOnly(db: State)
    requires db.mem == [] && db.imm == None && db.snapshots == []
    ensures All(db) == AllEntries(db.levels, 0)
    ensures (VersionOk(db.levels) && FilesOk(db.levels, db.nextFile) && db.lastSequence < MAX_SEQUENCE
        && Distinct(All(db))
             && forall e | e in All(db) :: e.key.sequence <= db.lastSequence) ==> Inv(db)
  {
    hide AllEntries, VersionOk, FilesOk;
    assert SetOf(db.mem) == {};
  }

  lemma {:induction false} RestartKeeps(sys: System, ev: Event, o: Options)
    requires Consistent(sys, o) && ev.Restart? && Can(sys, ev, o)
    ensures Consistent(Next(sys, ev, o), o)
  {
    hide Inv, AllEntries, WithRecovered, RecoveredTables, Contents, LogsToReplay, InTables, Consistent, Concat, LastOf,
        WithTables;
    RestartRecovers(sys, ev, o);
    RestartTables(sys, ev, o);
    FreshSystem(Next(sys, ev, o), o);
  }

  /** A system that has just started, with an empty log. */
  lemma {:induction false} FreshSystem(sys: System, o: Options)
    requires Inv(sys.db) && sys.db.mem == [] && sys.db.imm.None? && sys.inFlight.None? && sys.task.Idle?
        && sys.held == []
    requires sys.logNumber == sys.logfileNumber < sys.counter && sys.db.nextFile < sys.counter
    requires sys.logfileNumber in sys.disk.logs && sys.disk.logs[sys.logfileNumber] == []
    requires forall n | n in sys.disk.logs :: n <= sys.logfileNumber
    requires sys.disk.manifest == Manifest(sys.db.levels, sys.logNumber, sys.db.lastSequence, sys.counter)
    requires InTables(sys.db.levels, sys.disk.tables)
    ensures Consistent(sys, o)
  {
    FreshLog(sys, o);
    RestartWithin(sys.db);
    hide Inv, AllEntries, InTables, LogsOk, RecordsBounded, Unsaved;
  }

  lemma {:induction false} RestartWithin(db: State)
    requires Inv(db)
    ensures forall e | e in AllEntries(db.levels, 0) :: e.key.sequence <= db.lastSequence
  {
    hide AllEntries, VersionOk, FilesOk;
    assert AllEntries(db.levels, 0) <= All(db);
  }

  lemma {:induction false} FreshLog(sys: System, o: Options)
    requires sys.db.mem == [] && sys.db.imm.None? && sys.inFlight.None? && sys.logNumber == sys.logfileNumber
        && sys.logfileNumber in sys.disk.logs
    requires sys.disk.logs[sys.logfileNumber] == [] && forall n | n in sys.disk.logs :: n <= sys.logfileNumber
    ensures LogsOk(sys, o) && RecordsBounded(sys) && Unsaved(sys) == []
  {
    NoEntries();
    assert SetOf(sys.db.mem) == {};
    assert LoggedRecords(sys) == [];
  }

  lemma {:induction false} RestartTables(sys: System, ev: Event, o: Options)
    requires Consistent(sys, o) && ev.Restart? && Can(sys, ev, o)
    ensures var sys' := Next(sys, ev, o); InTables(sys'.db.levels, sys'.disk.tables)
  {
    hide Can, Next, Consistent, Concat, Contents, LogsToReplay, WithRecovered, RecoveredTables, InTables, WithTables,
        Below, CanBeLeft, WithLeftovers, Growing, FreshNumbers, InOrder, LastOf;
    RestartParts(sys, ev, o);
    LeftTablesApart(sys.disk, ev.left, o);
    var m := sys.disk.manifest;
    ManifestFiles(sys, o);
    RecoveredFiles(m.levels, ev.chunks, ev.numbers, m.nextFile + 1, o);
    TablesOfBoth(m.levels, WithRecovered(m.levels, ev.chunks, ev.numbers, o), WithLeftovers(sys.disk, ev.left).tables,
                 RecoveredTables(ev.chunks, ev.numbers, o), m.nextFile + 1);
  }

  /** Tables of failed recoveries take no number that a version has. */
  lemma {:induction false} LeftTablesApart(disk: Disk, left: Leftovers, o: Options)
    requires CanBeLeft(disk, left)
    ensures InTables(disk.manifest.levels, disk.tables) && Below(disk.manifest.levels, disk.manifest.nextFile + 1) ==>
              InTables(disk.manifest.levels, WithLeftovers(disk, left).tables)
  {
    hide InOrder;
  }

  lemma {:induction false} ManifestFiles(sys: System, o: Options)
    requires Consistent(sys, o)
    ensures InTables(sys.disk.manifest.levels, sys.disk.tables)
        && Below(sys.disk.manifest.levels, sys.disk.manifest.nextFile + 1)
  {
    UnsavedIsNewer(sys, o);
    hide LogsOk, RecordsBounded, AllEntries, Entries, Unsaved, LastOf, ManifestOk, VersionOk, TaskOk, Inv, InOrder;
  }

  lemma {:induction false} TablesOfBoth(levels: Levels, after: Levels, tables: map<nat, File>, files: seq<File>,
      nextFile: nat)
    requires InTables(levels, tables) && Below(levels, nextFile) && FreshNumbers(files, nextFile)
    requires forall l, f | 0 <= l < NUM_LEVELS && f in after[l] :: f in levels[l] || f in files
    ensures InTables(after, WithTables(tables, files))
  {
    hide InOrder, WithTables, FreshNumbers;
    TablesWritten(tables, files, nextFile);
  }
}
