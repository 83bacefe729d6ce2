/** The manifest along durable runs: a restart begins a new one, and its edits always lead to the
    version that the disk promises. */
module DurabilityManifest {
  import opened Format
  import opened Versions
  import opened VersionBuilder
  import opened CompactionInputs
  import opened CompactionWork
  import opened Database
  import opened DatabaseRuns
  import opened DatabaseReads
  import opened Durability
  import opened DurabilityRestart
  import opened DurabilityRuns
  import opened Manifests
  import opened ManifestRuns

  // ---------- What a restart logs ----------

  /** The tables made from the logs are added by one edit, after a snapshot of the version found. */
  ghost function RecoveryEdit(ev: Event, o: Options): Edit
    requires ev.Restart? && |ev.numbers| == |ev.chunks|
  {
    Edit({}, AtLevel(RecoveredTables(ev.chunks, ev.numbers, o), 0))
  }

  ghost predicate GainsAtLevel0(levels: Levels, after: Levels, files: seq<File>) {
    && (forall f: File :: f in after[0] <==> f in levels[0] || f in files)
    && forall l | 1 <= l < NUM_LEVELS :: after[l] == levels[l]
  }

  lemma {:induction false} GainsMore(levels: Levels, before: Levels, after: Levels, files: seq<File>, more: seq<File>)
    requires GainsAtLevel0(levels, before, files) && GainsAtLevel0(before, after, more)
    ensures GainsAtLevel0(levels, after, files + more)
  {
  }

  lemma {:induction false} RecoveredMembers(levels: Levels, chunks: seq<seq<Logged>>, numbers: seq<nat>, nextFile: nat,
      o: Options)
    requires |numbers| == |chunks| && Growing(numbers, nextFile) && Below(levels, nextFile)
    ensures var r, files := WithRecovered(levels, chunks, numbers, o), RecoveredTables(chunks, numbers, o);
            GainsAtLevel0(levels, r, files)
    decreases |chunks|
  {
    hide Sorted, Edited, Growing, Replayed, Below;
    if chunks != [] {
      var n := |chunks| - 1;
      GrowingFront(numbers, nextFile);
      RecoveredFiles(levels, chunks[..n], numbers[..n], nextFile, o);
      RecoveredMembers(levels, chunks[..n], numbers[..n], nextFile, o);
      var before, mem := WithRecovered(levels, chunks[..n], numbers[..n], o), Replayed(chunks[n]);
      BelowMore(before, DurabilityRestart.Past(numbers[..n], nextFile), numbers[n]);
      if mem != [] && Sorted(mem) {
        var f: File := Table(numbers[n], o.builtSize(mem), mem);
        MembersAtLevel0(before, f);
        GainsMore(levels, before, Edited(before, FlushEdit(0, f)), RecoveredTables(chunks[..n], numbers[..n], o), [f]);
        assert RecoveredTables(chunks, numbers, o) == RecoveredTables(chunks[..n], numbers[..n], o) + [f];
      } else {
        assert WithRecovered(levels, chunks, numbers, o) == before;
        assert RecoveredTables(chunks, numbers, o) == RecoveredTables(chunks[..n], numbers[..n], o);
      }
    }
  }

  lemma {:induction false} MembersAtLevel0(levels: Levels, f: File)
    requires Below(levels, f.number)
    ensures var after := Edited(levels, FlushEdit(0, f));
            GainsAtLevel0(levels, after, [f])
  {
    hide Edited, InOrder;
    var e := FlushEdit(0, f);
    forall l | 1 <= l < NUM_LEVELS ensures Edited(levels, e)[l] == levels[l] {
      UntouchedLevel(levels, e, l);
    }
    EditHolds(levels, e, 0);
  }

  lemma {:induction false} RecoveryAdds(ev: Event, o: Options)
    requires ev.Restart? && |ev.numbers| == |ev.chunks|
    ensures forall a: (nat, File) ::
        a in RecoveryEdit(ev, o).added <==> a.0 == 0 && a.1 in RecoveredTables(ev.chunks, ev.numbers, o)
  {
    hide RecoveredTables;
    var files := RecoveredTables(ev.chunks, ev.numbers, o);
    forall a: (nat, File) | a.0 == 0 && a.1 in files ensures a in AtLevel(files, 0) {
      var i :| 0 <= i < |files| && files[i] == a.1;
      assert AtLevel(files, 0)[i] == a;
    }
  }

  lemma {:induction false} SameVersion(levels: Levels, e: Edit, files: seq<File>, r: Levels)
    requires e.deleted == {} && forall a: (nat, File) :: a in e.added <==> a.0 == 0 && a.1 in files
    requires GainsAtLevel0(levels, r, files) && AllInOrder(levels) && AllInOrder(r)
    requires forall l | 0 <= l < NUM_LEVELS :: AddsFresh(levels[l], e, l)
    ensures Edited(levels, e) == r
  {
    hide Edited, InOrder, AddsFresh;
    forall l | 0 <= l < NUM_LEVELS ensures Edited(levels, e)[l] == r[l] {
      EditHolds(levels, e, l);
      assert forall f: File :: (l, f) in e.added <==> l == 0 && f in files;
      InOrderIsCanonical(Edited(levels, e)[l], r[l]);
    }
  }

  lemma {:induction false} BringsRecovered(levels: Levels, nextFile: nat, e: Edit, files: seq<File>, r: Levels,
      next: nat)
    requires forall a: (nat, File) :: a in e.added <==> a.0 == 0 && a.1 in files
    requires GainsAtLevel0(levels, r, files) && FreshNumbers(files, nextFile) && NextNumber(files, nextFile) <= next
    ensures BringsNew(levels, nextFile, e, r, next, 0)
  {
    hide FreshNumbers, NextNumber;
    NumbersBounded(files, nextFile);
    assert forall f: File | f in files :: (0, f) in e.added;
  }

  /** One edit with all the tables leads to the recovered version. */
  lemma {:induction false} RecoveryEditLeads(m: Manifest, ev: Event, o: Options)
    requires ev.Restart? && |ev.numbers| == |ev.chunks| && Growing(ev.numbers, m.nextFile + 1)
        && FilesOk(m.levels, m.nextFile)
    ensures var e, r := RecoveryEdit(ev, o), WithRecovered(m.levels, ev.chunks, ev.numbers, o);
            && Edited(m.levels, e) == r && AllInOrder(r)
            && BringsNew(m.levels, m.nextFile + 1, e, r, DurabilityRestart.Past(ev.numbers, m.nextFile + 1), 0)
            && forall l | 0 <= l < NUM_LEVELS :: AddsFresh([], e, l)
  {
    hide Edited, InOrder, WithRecovered, RecoveredTables, Growing, RecoveryEdit, FreshNumbers, NextNumber, BringsNew,
        AddsFresh, GainsAtLevel0, FilesOk, AllInOrder, Below, DurabilityRestart.Past;
    var e, r := RecoveryEdit(ev, o), WithRecovered(m.levels, ev.chunks, ev.numbers, o);
    var files := RecoveredTables(ev.chunks, ev.numbers, o);
    BelowOf(m.levels, m.nextFile);
    RecoveredFiles(m.levels, ev.chunks, ev.numbers, m.nextFile + 1, o);
    RecoveredMembers(m.levels, ev.chunks, ev.numbers, m.nextFile + 1, o);
    RecoveryAdds(ev, o);
    RecoveryFresh(m.levels, m.nextFile, ev, o);
    InOrderBelow(r, DurabilityRestart.Past(ev.numbers, m.nextFile + 1));
    SameVersion(m.levels, e, files, r);
    BringsRecovered(m.levels, m.nextFile + 1, e, files, r, DurabilityRestart.Past(ev.numbers, m.nextFile + 1));
  }

  lemma {:induction false} BelowOf(levels: Levels, nextFile: nat)
    requires FilesOk(levels, nextFile)
    ensures Below(levels, nextFile + 1) && AllInOrder(levels)
  {
    hide InOrder;
  }

  lemma {:induction false} InOrderBelow(levels: Levels, number: nat)
    requires Below(levels, number)
    ensures AllInOrder(levels)
  {
    hide InOrder;
  }

  lemma {:induction false} NumbersBounded(files: seq<File>, nextFile: nat)
    requires FreshNumbers(files, nextFile)
    ensures forall f | f in files :: nextFile <= f.number < NextNumber(files, nextFile)
    ensures forall f, g | f in files && g in files && f.number == g.number :: f == g
    ensures nextFile <= NextNumber(files, nextFile)
  {
    forall f | f in files ensures nextFile <= f.number < NextNumber(files, nextFile) {
      var i :| 0 <= i < |files| && files[i] == f;
      assert i < |files| - 1 ==> files[i].number < files[|files| - 1].number;
    }
  }

  lemma {:induction false} RecoveryFresh(levels: Levels, nextFile: nat, ev: Event, o: Options)
    requires ev.Restart? && |ev.numbers| == |ev.chunks| && FilesOk(levels, nextFile)
    requires FreshNumbers(RecoveredTables(ev.chunks, ev.numbers, o), nextFile + 1)
    ensures RecoveryEdit(ev, o).deleted == {}
    ensures forall l | 0 <= l < NUM_LEVELS ::
        AddsFresh(levels[l], RecoveryEdit(ev, o), l) && AddsFresh([], RecoveryEdit(ev, o), l)
  {
    hide InOrder, RecoveredTables;
  }

  // ---------- The manifest of a run ----------

  ghost function SnapshotEdit(levels: Levels): Edit {
    Edit({}, SnapshotAdds(levels, NUM_LEVELS))
  }

  /** The edits of the current manifest: those since the last restart. */
  ghost function ManifestEdits(systems: seq<System>, events: seq<Event>, o: Options, i: nat): seq<Edit>
    requires IsDurableRun(systems, events, o) && i < |systems|
  {
    if i == 0 then [SnapshotEdit(NO_FILES), Edit({}, [])]
    else
      var sys, before := systems[i - 1], ManifestEdits(systems, events, o, i - 1);
      match events[i - 1]
      case LogEdit => before + [EditOf(sys.db, sys.task.action, o)]
      case LogMove(level, f) => before + [EditOf(sys.db, TrivialMove(level, f), o)]
      case Restart(_, _, _, _, _) => [SnapshotEdit(sys.disk.manifest.levels), RecoveryEdit(events[i - 1], o)]
      case _ => before
  }

  ghost predicate Tells(edits: seq<Edit>, sys: System, o: Options) {
    Told(edits, Settled(sys, o).levels, Settled(sys, o).nextFile)
  }

  /** Steps that log nothing leave the promised version as it is. */
  lemma {:induction false} SettledStays(sys: System, ev: Event, o: Options)
    requires Consistent(sys, o) && Can(sys, ev, o) && Consistent(Next(sys, ev, o), o)
    requires !ev.LogEdit? && !ev.LogMove? && !ev.Restart?
    ensures Settled(Next(sys, ev, o), o).levels == Settled(sys, o).levels
    ensures Settled(Next(sys, ev, o), o).nextFile >= Settled(sys, o).nextFile
  {
    hide Inv, LogsOk, RecordsBounded, NumbersOk, TablesOk, ManifestOk, LastOf, Unsaved, Edited, IsFlushLevel, InputsOk,
        IsInput, Survivors;
  }

  lemma {:induction false} LoggedTells(edits: seq<Edit>, sys: System, a: Action, o: Options)
    requires Inv(sys.db) && Enabled(sys.db, a, o) && LogsEdit(a) && !sys.task.Installing? && Tells(edits, sys, o)
    ensures Told(edits + [EditOf(sys.db, a, o)], After(sys.db, a, o).levels, After(sys.db, a, o).nextFile)
  {
    hide Inv, Told, EditOf, Enabled, After;
    StepTold(edits, sys.db, a, o);
  }

  lemma {:induction false} BringsMore(levels: Levels, nextFile: nat, e: Edit, after: Levels, a: nat, b: nat, at: nat)
    requires BringsNew(levels, nextFile, e, after, a, at) && a <= b
    ensures BringsNew(levels, nextFile, e, after, b, at)
  {
  }

  /** The snapshot and the recovered tables lead to the recovered version. */
  lemma {:induction false} RestartTells(sys: System, ev: Event, o: Options)
    requires Consistent(sys, o) && ev.Restart? && Can(sys, ev, o)
    ensures |ev.numbers| == |ev.chunks|
    ensures Tells([SnapshotEdit(sys.disk.manifest.levels), RecoveryEdit(ev, o)], Next(sys, ev, o), o)
  {
    hide Can, Next, Consistent, FilesOk, VersionOk, Told, WithRecovered, RecoveredTables, Contents, LogsToReplay,
        RecoveryEdit, Growing, BringsNew, AddsFresh, AllInOrder, SnapshotAdds, Edited, CanBeLeft, WithLeftovers, LastOf,
        WithTables, Unsaved, Entries, AllEntries;
    var m := sys.disk.manifest;
    RestartParts(sys, ev, o);
    UnsavedFacts(sys, o);
    SnapshotTold(m.levels, m.nextFile);
    RecoveryEditLeads(m, ev, o);
    ToldLater([SnapshotEdit(m.levels)], m.levels, m.nextFile, m.nextFile + 1);
    MoreNumbers(m.levels, m.nextFile, m.nextFile + 1);
    var e, r := RecoveryEdit(ev, o), WithRecovered(m.levels, ev.chunks, ev.numbers, o);
    BringsMore(m.levels, m.nextFile + 1, e, r, DurabilityRestart.Past(ev.numbers, m.nextFile + 1), ev.newLog, 0);
    OneMoreTold([SnapshotEdit(m.levels)], m.levels, m.nextFile + 1, e, ev.newLog, 0);
    assert [SnapshotEdit(m.levels)] + [e] == [SnapshotEdit(m.levels), e];
    RestartIdle(sys, ev, o);
  }

  lemma {:induction false} RestartIdle(sys: System, ev: Event, o: Options)
    requires ev.Restart? && Can(sys, ev, o)
    ensures Next(sys, ev, o).task.Idle?
  {
    hide Concat, Contents, LogsToReplay, WithRecovered, RecoveredTables, WithTables, CanBeLeft, LastOf, Enabled, After;
  }

  lemma {:induction false} ToldLater(edits: seq<Edit>, levels: Levels, a: nat, b: nat)
    requires Told(edits, levels, a) && a <= b
    ensures Told(edits, levels, b)
  {
    hide AllFresh, AllInOrder, EditedAll, OneFileEach, IsOnlyBelow;
  }

  lemma {:induction false} LogEditTells(edits: seq<Edit>, sys: System, ev: Event, o: Options)
    requires Consistent(sys, o) && Can(sys, ev, o) && (ev.LogEdit? || ev.LogMove?) && Tells(edits, sys, o)
    ensures var a := LoggedAction(sys, ev);
        Enabled(sys.db, a, o) && Tells(edits + [EditOf(sys.db, a, o)], Next(sys, ev, o), o)
  {
    hide Inv, Told, EditOf, Enabled, After, LogsOk, RecordsBounded, NumbersOk, TablesOk, ManifestOk, LastOf, Unsaved,
        Recorded;
    LoggedTells(edits, sys, LoggedAction(sys, ev), o);
  }

  function LoggedAction(sys: System, ev: Event): Action
    requires (ev.LogEdit? && (sys.task.Flushed? || sys.task.Merging?)) || ev.LogMove?
  {
    if ev.LogEdit? then sys.task.action else TrivialMove(ev.from, ev.file)
  }

  /** Along every durable run, crashes included, the manifest adds no number twice and leads to the
      version that the disk promises. */
  lemma {:induction false} DurableManifest(systems: seq<System>, events: seq<Event>, o: Options, i: nat)
    requires IsDurableRun(systems, events, o) && i < |systems|
    ensures Consistent(systems[i], o) && Tells(ManifestEdits(systems, events, o, i), systems[i], o)
  {
    hide Consistent, Can, Next, Tells, EditOf, RecoveryEdit, SnapshotEdit;
    DurableRunKeeps(systems, events, o, i);
    if i == 0 {
      NewStoreTells(o);
    } else {
      var sys, ev, before := systems[i - 1], events[i - 1], ManifestEdits(systems, events, o, i - 1);
      DurableManifest(systems, events, o, i - 1);
      match ev
      case LogEdit => LogEditTells(before, sys, ev, o);
      case LogMove(_, _) => LogEditTells(before, sys, ev, o);
      case Restart(_, _, _, _, _) => RestartTells(sys, ev, o);
      case _ => StepTells(before, sys, ev, o);
    }
  }

  lemma {:induction false} StepTells(edits: seq<Edit>, sys: System, ev: Event, o: Options)
    requires Consistent(sys, o) && Can(sys, ev, o) && Consistent(Next(sys, ev, o), o) && Tells(edits, sys, o)
    requires !ev.LogEdit? && !ev.LogMove? && !ev.Restart?
    ensures Tells(edits, Next(sys, ev, o), o)
  {
    hide Consistent, Can, Next, Told, Settled;
    SettledStays(sys, ev, o);
    ToldLater(edits, Settled(sys, o).levels, Settled(sys, o).nextFile, Settled(Next(sys, ev, o), o).nextFile);
  }

  lemma {:induction false} NewStoreTells(o: Options)
    ensures Tells([SnapshotEdit(NO_FILES), Edit({}, [])], START, o)
  {
    hide Inv, Told, SnapshotAdds, FilesOk, BringsNew, AddsFresh, AllInOrder, Edited;
    InitialInv();
    FilesOfInv(INITIAL);
    SnapshotTold(NO_FILES, INITIAL.nextFile);
    InOrderOf(NO_FILES, INITIAL.nextFile);
    NothingEdited(NO_FILES);
    NothingBrought(NO_FILES, INITIAL.nextFile, INITIAL.nextFile);
    OneMoreTold([SnapshotEdit(NO_FILES)], NO_FILES, INITIAL.nextFile, Edit({}, []), INITIAL.nextFile, 0);
    assert [SnapshotEdit(NO_FILES)] + [Edit({}, [])] == [SnapshotEdit(NO_FILES), Edit({}, [])];
  }

  /** So at any crash the edits of the manifest, replayed into one builder, give the version that the
      restart starts from. */
  lemma {:induction false} ManifestIsPromised(systems: seq<System>, events: seq<Event>, o: Options, i: nat)
    requires IsDurableRun(systems, events, o) && i < |systems|
    ensures var edits := ManifestEdits(systems, events, o, i);
            && AllFresh(edits) && EditedAll(NO_FILES, edits) == systems[i].disk.manifest.levels
            && forall l | 0 <= l < NUM_LEVELS ::
                SaveAt([], Applied(UNTOUCHED, edits, l)) == systems[i].disk.manifest.levels[l]
  {
    hide Inv, LogsOk, RecordsBounded, NumbersOk, TablesOk, LastOf, Unsaved, Settled, AllFresh, EditedAll, AllInOrder,
        ManifestRuns.Past, IsDurableRun, TaskOk, ManifestEdits, SaveAt, Applied;
    DurableManifest(systems, events, o, i);
    OneBuilder(ManifestEdits(systems, events, o, i));
  }

  lemma {:induction false} OneBuilder(edits: seq<Edit>)
    requires AllFresh(edits)
    ensures forall l | 0 <= l < NUM_LEVELS :: SaveAt([], Applied(UNTOUCHED, edits, l)) == EditedAll(NO_FILES, edits)[l]
  {
    hide SaveAt, Applied, EditedAll, NumbersFresh, InOrder;
    forall l | 0 <= l < NUM_LEVELS ensures SaveAt([], Applied(UNTOUCHED, edits, l)) == EditedAll(NO_FILES, edits)[l] {
      EmptyInOrder();
      OneBuilderSuffices(NO_FILES, edits, l);
    }
  }
}
