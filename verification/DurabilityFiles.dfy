/** The files of the durable store as bytes: what a crash leaves of the manifest. */
module DurabilityFiles {
  import opened Format
  import opened Versions
  import opened VersionBuilder
  import opened Database
  import opened Durability
  import opened DurabilityRuns
  import opened DurabilityManifest
  import opened KeyEncoding
  import opened LogFormat
  import opened LogRoundTrip
  import opened Manifests
  import opened ManifestRuns
  import opened ManifestFile
  import Codec = VersionEditCodec

  // ---------- The records of the manifest ----------

  /** An edit is logged with all numbers of the manifest it leads to. */
  function Complete(m: Manifest, e: Edit): VersionEdit {
    VersionEdit(None, Some(m.logNumber), Some(0), Some(m.nextFile), Some(m.lastSequence), e)
  }

  /** What recovery makes of the manifest. */
  function Found(m: Manifest): Recovered {
    Recovered(m.levels, m.logNumber, 0, m.nextFile, m.nextFile + 1, m.lastSequence)
  }

  /** The records of the current manifest: a snapshot, and what has been logged since. */
  ghost function ManifestRecords(systems: seq<System>, events: seq<Event>, o: Options, i: nat,
      name: Bytes): seq<VersionEdit>
    requires IsDurableRun(systems, events, o) && i < |systems|
  {
    if i == 0 then [Manifests.Snapshot(NO_FILES, name), Complete(START.disk.manifest, Edit({}, []))]
    else
      var sys, before := systems[i - 1], ManifestRecords(systems, events, o, i - 1, name);
      match events[i - 1]
      case LogEdit => before + [Complete(systems[i].disk.manifest, EditOf(sys.db, sys.task.action, o))]
      case LogMove(level, f) => before + [Complete(systems[i].disk.manifest, EditOf(sys.db, TrivialMove(level, f), o))]
      case Restart(_, _, _, _, _) =>
        [Manifests.Snapshot(sys.disk.manifest.levels, name),
            Complete(systems[i].disk.manifest, RecoveryEdit(events[i - 1], o))]
      case _ => before
  }

  lemma {:induction false} RecordsHoldEdits(systems: seq<System>, events: seq<Event>, o: Options, i: nat, name: Bytes)
    requires IsDurableRun(systems, events, o) && i < |systems|
    ensures Files(ManifestRecords(systems, events, o, i, name)) == ManifestEdits(systems, events, o, i)
  {
    hide Can, Next, EditOf, RecoveryEdit, SnapshotAdds;
    if i > 0 {
      RecordsHoldEdits(systems, events, o, i - 1, name);
    }
  }

  ghost predicate LogsToManifest(ev: Event) {
    ev.LogEdit? || ev.LogMove? || ev.Restart?
  }

  lemma {:induction false} ManifestStays(sys: System, ev: Event, o: Options)
    requires Can(sys, ev, o) && !LogsToManifest(ev)
    ensures Next(sys, ev, o).disk.manifest == sys.disk.manifest
  {
    hide Enabled, After;
  }

  /** A manifest whose last record has these numbers. */
  ghost predicate EndsIn(es: seq<VersionEdit>, m: Manifest, name: Bytes) {
    && |es| >= 2 && NamesMatch(es, name)
    && es[0].logNumber.None? && es[0].nextFile.None? && es[0].lastSequence.None?
    && (forall j | 1 <= j < |es| ::
          es[j].logNumber.Some? && es[j].prevLogNumber.Some? && es[j].nextFile.Some? && es[j].lastSequence.Some?)
    && es[|es| - 1] == Complete(m, es[|es| - 1].files)
  }

  lemma {:induction false} OneMoreEnds(es: seq<VersionEdit>, m: Manifest, m': Manifest, e: Edit, name: Bytes)
    requires EndsIn(es, m, name)
    ensures EndsIn(es + [Complete(m', e)], m', name)
  {
  }

  lemma {:induction false} NewManifestEnds(levels: Levels, m: Manifest, e: Edit, name: Bytes)
    ensures EndsIn([Manifests.Snapshot(levels, name), Complete(m, e)], m, name)
  {
    hide SnapshotAdds;
  }

  lemma {:induction false} RecordsEnd(systems: seq<System>, events: seq<Event>, o: Options, i: nat, name: Bytes)
    requires IsDurableRun(systems, events, o) && i < |systems|
    ensures EndsIn(ManifestRecords(systems, events, o, i, name), systems[i].disk.manifest, name)
  {
    hide Next, Enabled, After, LogsToReplay, CanBeLeft, Contents, Concat, EditOf, RecoveryEdit, EndsIn,
        Manifests.Snapshot;
    if i == 0 {
      NewManifestEnds(NO_FILES, START.disk.manifest, Edit({}, []), name);
    } else {
      RecordsEnd(systems, events, o, i - 1, name);
      var sys, m := systems[i - 1], systems[i].disk.manifest;
      match events[i - 1]
      case LogEdit =>
        OneMoreEnds(ManifestRecords(systems, events, o, i - 1, name), sys.disk.manifest, m,
          EditOf(sys.db, sys.task.action, o), name);
      case LogMove(level, f) =>
        OneMoreEnds(ManifestRecords(systems, events, o, i - 1, name), sys.disk.manifest, m,
          EditOf(sys.db, TrivialMove(level, f), o), name);
      case Restart(_, _, _, _, _) => NewManifestEnds(sys.disk.manifest.levels, m, RecoveryEdit(events[i - 1], o), name);
      case _ => ManifestStays(sys, events[i - 1], o);
    }
  }

  /** In every state of every run, the records of the manifest are those of a manifest that recovers
      to what the disk promises: version, log number, next file number and last sequence number. */
  lemma {:induction false} RecordsRecover(systems: seq<System>, events: seq<Event>, o: Options, i: nat, name: Bytes)
    requires IsDurableRun(systems, events, o) && i < |systems|
    ensures var es := ManifestRecords(systems, events, o, i, name);
            IsManifest(es, name) && |es| >= 2 && RecoveredAfter(es, |es|) == Found(systems[i].disk.manifest)
  {
    hide IsDurableRun, ManifestRecords, ManifestEdits, AllFresh, EditedAll, SaveAt, Applied;
    RecordsHoldEdits(systems, events, o, i, name);
    RecordsEnd(systems, events, o, i, name);
    ManifestIsPromised(systems, events, o, i);
    var es := ManifestRecords(systems, events, o, i, name);
    assert es[..|es|] == es;
  }

  // ---------- The bytes of the manifest ----------

  lemma {:induction false} TablesAreThere(systems: seq<System>, events: seq<Event>, o: Options, i: nat)
    requires IsDurableRun(systems, events, o) && i < |systems|
    ensures TablesOf(AddedTables(ManifestEdits(systems, events, o, i)), ManifestEdits(systems, events, o, i))
  {
    hide IsDurableRun, ManifestEdits, Consistent, AllFresh, EditedAll, AllInOrder, OnlyMovedDown, Settled, OneFileEach,
        TablesOf, AddedTables;
    DurableManifest(systems, events, o, i);
    OneTableEach(ManifestEdits(systems, events, o, i));
  }

  /** The manifest on disk recovers to what the disk promises. */
  lemma {:induction false} ManifestOnDisk(names: Naming, rs: seq<Codec.EditRecord>, systems: seq<System>,
      events: seq<Event>, o: Options, i: nat)
    requires IsDurableRun(systems, events, o) && i < |systems|
    requires AreRecordsOf(names, rs, ManifestRecords(systems, events, o, i, names.comparator))
    ensures ReadManifest(names, AddedTables(ManifestEdits(systems, events, o, i)), Log(0, EncodedRecords(rs)))
         == Ok(Found(systems[i].disk.manifest))
  {
    hide IsDurableRun, ManifestRecords, ManifestEdits, IsRecordOf, IsManifest, RecoveredAfter, ReadManifest, TablesOf,
        AddedTables, Log, Whole;
    var es, file := ManifestRecords(systems, events, o, i, names.comparator), Log(0, EncodedRecords(rs));
    RecordsRecover(systems, events, o, i, names.comparator);
    RecordsHoldEdits(systems, events, o, i, names.comparator);
    TablesAreThere(systems, events, o, i);
    AllWhole(EncodedRecords(rs));
    ManifestRecovers(names, AddedTables(ManifestEdits(systems, events, o, i)), rs, es, |file|);
    assert file[..|file|] == file;
  }

  lemma {:induction false} LoggingAppends(systems: seq<System>, events: seq<Event>, o: Options, i: nat, name: Bytes)
    requires IsDurableRun(systems, events, o) && i < |events| && (events[i].LogEdit? || events[i].LogMove?)
    ensures var before, after := ManifestRecords(systems, events, o, i, name),
        ManifestRecords(systems, events, o, i + 1, name);
            |after| == |before| + 1 && after[..|before|] == before
  {
    hide Next, Enabled, After, EditOf, Complete;
  }

  /** A crash while an edit is being logged leaves the manifest as it was before that step, or, if all
      bytes of the edit have been written, as it is after it. */
  lemma {:induction false} TornEdit(names: Naming, rs: seq<Codec.EditRecord>, n: nat, systems: seq<System>,
      events: seq<Event>, o: Options, i: nat)
    requires IsDurableRun(systems, events, o) && i < |events| && (events[i].LogEdit? || events[i].LogMove?)
    requires AreRecordsOf(names, rs, ManifestRecords(systems, events, o, i + 1, names.comparator)) && rs != []
    requires |Log(0, EncodedRecords(rs)[..|rs| - 1])| <= n <= |Log(0, EncodedRecords(rs))|
    ensures var file := Log(0, EncodedRecords(rs));
            ReadManifest(names, AddedTables(ManifestEdits(systems, events, o, i + 1)), file[..n])
            == Ok(Found(systems[if n < |file| then i else i + 1].disk.manifest))
  {
    hide IsDurableRun, ManifestRecords, ManifestEdits, IsRecordOf, IsManifest, ReadManifest, TablesOf, AddedTables, Log,
        Whole, EditedAll;
    DurableLength(systems, events, o);
    var name, file := names.comparator, Log(0, EncodedRecords(rs));
    var before, es := ManifestRecords(systems, events, o, i, name), ManifestRecords(systems, events, o, i + 1, name);
    if n == |file| {
      ManifestOnDisk(names, rs, systems, events, o, i + 1);
      assert file[..n] == file;
    } else {
      LoggingAppends(systems, events, o, i, name);
      RecordsRecover(systems, events, o, i, name);
      RecordsRecover(systems, events, o, i + 1, name);
      RecordsHoldEdits(systems, events, o, i + 1, name);
      TablesAreThere(systems, events, o, i + 1);
      AllButLastWhole(EncodedRecords(rs), n);
      ManifestRecovers(names, AddedTables(ManifestEdits(systems, events, o, i + 1)), rs, es, n);
      assert before[..|before|] == before && es[|before| - 1] == before[|before| - 1];
    }
  }
}
