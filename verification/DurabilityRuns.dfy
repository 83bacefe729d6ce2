/** Runs of the durable store, with crashes at any point: no acknowledged write is ever lost. */
module DurabilityRuns {
  import opened Format
  import opened Versions
  import opened Database
  import opened DatabaseRuns
  import opened DatabaseReads
  import opened Durability
  import opened DurabilitySteps
  import opened DurabilityRestart

  /** Every possible step keeps the invariant. */
  lemma {:induction false} StepKeepsConsistent(sys: System, ev: Event, o: Options)
    requires Consistent(sys, o) && Can(sys, ev, o)
    ensures Consistent(Next(sys, ev, o), o)
  {
    hide Consistent, Can, Next;
    match ev
    case LogWrite(ops) => LogWriteKeeps(sys, ops, o);
    case ApplyWrite => ApplyWriteKeeps(sys, o);
    case Switch => SwitchKeeps(sys, o);
    case Snapshot => SnapshotKeeps(sys, ev, o);
    case Release(_) => SnapshotKeeps(sys, ev, o);
    case Hold => HoldKeeps(sys, ev, o);
    case Drop(_) => HoldKeeps(sys, ev, o);
    case StartFlush => StartFlushKeeps(sys, o);
    case BuildTable(level) => BuildTableKeeps(sys, level, o);
    case StartMerge(_, _, _, _) => StartMergeKeeps(sys, ev, o);
    case WriteOutput(f) => WriteOutputKeeps(sys, f, o);
    case LogEdit => LogEditKeeps(sys, o);
    case LogMove(level, f) => LogMoveKeeps(sys, level, f, o);
    case Install => InstallKeeps(sys, o);
    case DeleteObsoleteFiles => RemovalKeeps(sys, o);
    case Restart(_, _, _, _, _) => RestartKeeps(sys, ev, o);
  }

  /** While a memtable is on its way to a table, the current log stays the current log. */
  lemma {:induction false} LogStaysDuringFlush(sys: System, ev: Event, o: Options)
    requires Consistent(sys, o) && Can(sys, ev, o) && !ev.Restart?
    requires sys.task.Flushing? || ((sys.task.Flushed? || sys.task.Installing?) && sys.task.action.CompactMemTable?)
    ensures Next(sys, ev, o).logfileNumber == sys.logfileNumber
  {
    hide Inv, LogsOk, RecordsBounded, NumbersOk, TablesOk, ManifestOk, LastOf, Unsaved;
    FlushNeedsImm(sys, o);
  }

  /** A new store: the manifest was number 2, the log is number 3. */
  const START: System :=
    System(INITIAL, 4, 3, 3, {}, [], None, Idle, Disk(map[3 := []], map[], Manifest(NO_FILES, 3, 0, 4)))

  lemma {:induction false} StartIsConsistent(o: Options)
    ensures Consistent(START, o) && All(START.db) == {}
  {
    InitialInv();
    NothingInitially();
    assert InTables(NO_FILES, map[]);
    hide Inv, InTables;
    FreshSystem(START, o);
  }

  ghost predicate IsDurableRun(systems: seq<System>, events: seq<Event>, o: Options) {
    && |systems| == |events| + 1 && systems[0] == START
    && forall i | 0 <= i < |events| :: Can(systems[i], events[i], o) && systems[i + 1] == Next(systems[i], events[i], o)
  }

  lemma {:induction false} DurableRunKeeps(systems: seq<System>, events: seq<Event>, o: Options, i: nat)
    requires IsDurableRun(systems, events, o) && i < |systems|
    ensures Consistent(systems[i], o)
  {
    hide Consistent, Can, Next;
    if i == 0 {
      StartIsConsistent(o);
    } else {
      DurableRunKeeps(systems, events, o, i - 1);
      StepKeepsConsistent(systems[i - 1], events[i - 1], o);
    }
  }

  // ---------- Reads ----------

  /** The compaction whose edit is in the manifest brings u back for readers at `at`. */
  ghost predicate InstallingResurrects(sys: System, at: SequenceNumber, u: UserKey) {
    && sys.task.Installing? && sys.task.action.Compact? && sys.task.action.level + 1 < NUM_LEVELS
    && var a := sys.task.action; ResurrectsKey(sys.db, a.level, a.inputs0, a.inputs1, a.oldest, at, u)
  }

  ghost predicate Untouched(batch: set<Entry>, u: UserKey) {
    forall e | e in batch :: e.key.user != u
  }

  /** Does this step bring back a key that a reader may still ask for? Installing a compaction may,
      and so may a restart that finds its edit in the manifest: for readers of the latest state, of
      keys that the batch in flight does not write. */
  ghost predicate BringsBack(sys: System, ev: Event) {
    match ev
    case Install => exists u :: InstallingResurrects(sys, SmallestSnapshot(sys.db), u)
    case Restart(_, _, _, _, _) =>
      exists u :: InstallingResurrects(sys, sys.db.lastSequence, u) && Untouched(Batch(sys.db, sys.inFlight), u)
    case _ => false
  }

  lemma {:induction false} InvOf(sys: System, o: Options)
    requires Consistent(sys, o)
    ensures Inv(sys.db) && (sys.task.Installing? ==> Enabled(sys.db, sys.task.action, o) && !sys.task.action.Write?)
  {
    hide Inv, LogsOk, RecordsBounded, NumbersOk, TablesOk, ManifestOk, LastOf, Unsaved, Enabled;
  }

  lemma {:induction false} LatestIsReadable(st: State)
    requires Inv(st)
    ensures SmallestSnapshot(st) <= st.lastSequence && Distinct(All(st))
        && forall e | e in All(st) :: e.key.sequence <= st.lastSequence
  {
    hide VersionOk, FilesOk, All, Distinct;
  }

  /** Reads of the latest state, once the recorded edit is installed. */
  lemma {:induction false} SettledReads(sys: System, history: set<Entry>, o: Options, u: UserKey)
    requires Consistent(sys, o) && ReadsFrom(sys.db, history, sys.db.lastSequence, u)
    ensures ReadsFrom(Settled(sys, o), history, sys.db.lastSequence, u)
        <==> !InstallingResurrects(sys, sys.db.lastSequence, u)
  {
    hide Consistent, Inv, Enabled, After, ResurrectsKey, Read, All;
    InvOf(sys, o);
    LatestIsReadable(sys.db);
    if sys.task.Installing? {
      var a := sys.task.action;
      KeepsLastSequence(sys.db, a, o);
      if a.Compact? {
        CompactionReadsExactly(sys.db, a.level, a.inputs0, a.inputs1, a.oldest, a.input, a.outputs, o,
            sys.db.lastSequence, u);
      } else {
        StoreKept(sys.db, a, o);
      }
    }
  }

  lemma {:induction false} BatchNumbers(sys: System, o: Options)
    requires Consistent(sys, o)
    ensures Distinct(Batch(sys.db, sys.inFlight))
    ensures forall e | e in Batch(sys.db, sys.inFlight) :: e.key.sequence > sys.db.lastSequence
  {
    hide Consistent, BatchSet;
    if sys.inFlight.Some? && sys.db.lastSequence + |sys.inFlight.value| <= MAX_SEQUENCE {
      BatchSequences(sys.inFlight.value, sys.db.lastSequence + 1);
    }
  }

  /** Past the last number in use, all reads of a key are the same. */
  lemma {:induction false} LatestRead(es: set<Entry>, batch: set<Entry>, u: UserKey, s: SequenceNumber,
      t: SequenceNumber)
    requires Distinct(es + batch) && Untouched(batch, u)
        && forall e | e in es :: e.key.sequence <= s && e.key.sequence <= t
    ensures Read(es + batch, u, t) == Read(es, u, s)
  {
    hide Read, Distinct;
    assert Distinct(es) by { DistinctSubset(es + batch, es); }
    SameReads(es, es + batch, u, s, t);
  }

  /** With a batch of newer entries added, a key reads as the history says exactly when it did
      before, unless the batch writes it. */
  lemma {:induction false} BatchOverSettled(st: State, db: State, history: set<Entry>, batch: set<Entry>, u: UserKey)
    requires All(db) == All(st) + batch && Distinct(All(st) + batch) && Distinct(history + batch)
        && st.lastSequence <= db.lastSequence
    requires forall e | e in All(st) + history :: e.key.sequence <= st.lastSequence
    requires forall e | e in batch :: st.lastSequence < e.key.sequence <= db.lastSequence
    ensures ReadsFrom(db, history + batch, db.lastSequence, u)
            <==> ReadsFrom(st, history, st.lastSequence, u) || !Untouched(batch, u)
  {
    hide Read, All, Distinct, Untouched;
    var last := db.lastSequence;
    if !Untouched(batch, u) {
      forall s: SequenceNumber | last <= s ensures ReadAt(db, u, s) == Read(history + batch, u, s) {
        BatchDecides(All(st), history, batch, u, s);
      }
    } else if ReadsFrom(st, history, st.lastSequence, u) {
      AddedReads(st, db, history, batch, st.lastSequence, last, u);
    } else {
      var s: SequenceNumber :| st.lastSequence <= s && ReadAt(st, u, s) != Read(history, u, s);
      LatestRead(All(st), batch, u, s, last);
      LatestRead(history, batch, u, s, last);
      assert ReadAt(db, u, last) != Read(history + batch, u, last);
    }
  }

  lemma {:induction false} BatchDecides(a: set<Entry>, b: set<Entry>, batch: set<Entry>, u: UserKey, s: SequenceNumber)
    requires Distinct(a + batch) && Distinct(b + batch) && !Untouched(batch, u)
        && forall e | e in batch :: e.key.sequence <= s
    requires forall x, e | x in a + b && e in batch :: x.key.sequence < e.key.sequence
    ensures Read(a + batch, u, s) == Read(b + batch, u, s)
  {
    hide Read;
    var e := NewestExists(batch, u, s);
    ReadNewest(a + batch, u, s, e);
    ReadNewest(b + batch, u, s, e);
  }

  /** What a restart finds: the settled store and a batch of newer entries. */
  lemma {:induction false} RestartFinds(sys: System, history: set<Entry>, ev: Event, o: Options)
    requires Consistent(sys, o) && ev.Restart? && Can(sys, ev, o)
    requires Distinct(history) && forall e | e in history :: e.key.sequence <= sys.db.lastSequence
    ensures var st, db, batch := Settled(sys, o), Next(sys, ev, o).db, Batch(sys.db, sys.inFlight);
            && All(db) == All(st) + batch && Distinct(All(st) + batch) && Distinct(history + batch)
            && st.lastSequence == sys.db.lastSequence <= db.lastSequence && SmallestSnapshot(db) == db.lastSequence
            && (forall e | e in All(st) + history :: e.key.sequence <= st.lastSequence)
            && (forall e | e in batch :: st.lastSequence < e.key.sequence <= db.lastSequence)
  {
    hide Consistent, Can, Next, All, Settled, Batch, Inv, Distinct;
    RestartParts(sys, ev, o);
    RestartRecovers(sys, ev, o);
    DiskHoldsStore(sys, o);
    BatchNumbers(sys, o);
    LatestIsReadable(Settled(sys, o));
    LatestIsReadable(Next(sys, ev, o).db);
    FreshEntries(history, Batch(sys.db, sys.inFlight), sys.db.lastSequence);
    assert forall e | e in Batch(sys.db, sys.inFlight) :: e in All(Next(sys, ev, o).db);
  }

  /** After a restart reads agree with everything acknowledged before, and a batch that made it to
      the log, if and only if it brings no key back. */
  lemma {:induction false} RestartAgrees(sys: System, history: set<Entry>, ev: Event, o: Options)
    requires Consistent(sys, o) && ev.Restart? && Can(sys, ev, o) && AgreesWith(sys.db, history)
    ensures AgreesWith(Next(sys, ev, o).db, history + Batch(sys.db, sys.inFlight)) <==> !BringsBack(sys, ev)
  {
    hide Consistent, Can, Next, Settled, Batch, All, Distinct, InstallingResurrects, Untouched, Read;
    RestartFinds(sys, history, ev, o);
    InvOf(sys, o);
    LatestIsReadable(sys.db);
    var st, db, batch := Settled(sys, o), Next(sys, ev, o).db, Batch(sys.db, sys.inFlight);
    forall u ensures ReadsFrom(db, history + batch, SmallestSnapshot(db), u)
                     <==> !(InstallingResurrects(sys, sys.db.lastSequence, u) && Untouched(batch, u))
    {
      assert ReadsFrom(sys.db, history, SmallestSnapshot(sys.db), u);
      assert ReadsFrom(sys.db, history, sys.db.lastSequence, u);
      SettledReads(sys, history, o, u);
      BatchOverSettled(st, db, history, batch, u);
    }
  }

  /** With no batch in flight, a restart changes no read of the latest state, except that it brings
      back what the compaction in the manifest does. */
  lemma {:induction false} RestartReads(sys: System, ev: Event, o: Options, u: UserKey)
    requires Consistent(sys, o) && ev.Restart? && Can(sys, ev, o) && sys.inFlight.None?
    ensures var db := Next(sys, ev, o).db;
            ReadAt(db, u, db.lastSequence) == ReadAt(sys.db, u, sys.db.lastSequence)
            <==> !InstallingResurrects(sys, sys.db.lastSequence, u)
  {
    hide Consistent, Can, Next, Settled, All, Distinct, InstallingResurrects, Read, Inv;
    var st, db, history, last := Settled(sys, o), Next(sys, ev, o).db, All(sys.db), sys.db.lastSequence;
    InvOf(sys, o);
    LatestIsReadable(sys.db);
    RestartFinds(sys, history, ev, o);
    assert All(st) + {} == All(st) && history + {} == history;
    SettledReads(sys, history, o, u);
    BatchOverSettled(st, db, history, {}, u);
    forall s: SequenceNumber | db.lastSequence <= s
      ensures ReadAt(db, u, s) == ReadAt(db, u, db.lastSequence) && Read(history, u, s) == ReadAt(sys.db, u, last)
    {
      LatestRead(All(db), {}, u, db.lastSequence, s);
      LatestRead(history, {}, u, last, s);
      assert All(db) + {} == All(db);
    }
  }

  // ---------- Runs ----------

  /** The entries of every acknowledged write, and of batches that a crash left whole in the log. */
  ghost function Acknowledged(systems: seq<System>, events: seq<Event>, o: Options, i: nat): set<Entry>
    requires IsDurableRun(systems, events, o) && i < |systems|
  {
    if i == 0 then {}
    else
      var before, sys := Acknowledged(systems, events, o, i - 1), systems[i - 1];
      match events[i - 1]
      case ApplyWrite => before + Batch(sys.db, sys.inFlight)
      case Restart(_, _, _, _, _) => before + Batch(sys.db, sys.inFlight)
      case _ => before
  }

  lemma {:induction false} ApplyAgrees(sys: System, history: set<Entry>, o: Options)
    requires Consistent(sys, o) && Can(sys, ApplyWrite, o) && AgreesWith(sys.db, history)
    ensures AgreesWith(Next(sys, ApplyWrite, o).db, history + Batch(sys.db, sys.inFlight))
  {
    hide Consistent, Inv, AgreesWith, After, Enabled, BatchSet, Can, Next, Batch;
    InvOf(sys, o);
    ApplyIsWrite(sys, o);
    WriteAgrees(sys.db, history, sys.inFlight.value, o);
  }

  lemma {:induction false} ApplyIsWrite(sys: System, o: Options)
    requires Can(sys, ApplyWrite, o)
    ensures sys.inFlight.Some? && Enabled(sys.db, Write(sys.inFlight.value), o)
    ensures sys.db.lastSequence + 1 + |sys.inFlight.value| <= MAX_SEQUENCE + 1
    ensures Next(sys, ApplyWrite, o).db == After(sys.db, Write(sys.inFlight.value), o)
    ensures Batch(sys.db, sys.inFlight) == BatchSet(sys.inFlight.value, sys.db.lastSequence + 1)
  {
    hide BatchSet;
  }

  lemma {:induction false} StepAgrees(sys: System, history: set<Entry>, ev: Event, o: Options)
    requires Consistent(sys, o) && Can(sys, ev, o) && AgreesWith(sys.db, history)
    requires !ev.ApplyWrite? && !ev.Restart?
    ensures AgreesWith(Next(sys, ev, o).db, history) <==> !BringsBack(sys, ev)
  {
    hide Consistent, Inv, AgreesWith, Enabled, After, ResurrectsKey, InstallingResurrects, ResurrectsAny;
    InvOf(sys, o);
    match ev
    case Switch => OtherAgrees(sys.db, history, SwitchMemTable, o);
    case Snapshot => SnapshotEnabled(sys.db, GetSnapshot, o); OtherAgrees(sys.db, history, GetSnapshot, o);
    case Release(i) => SnapshotEnabled(sys.db, ReleaseSnapshot(i), o);
        OtherAgrees(sys.db, history, ReleaseSnapshot(i), o);
    case Install => OtherAgrees(sys.db, history, sys.task.action, o); InstallBringsBack(sys);
    case _ =>
  }

  lemma {:induction false} InstallBringsBack(sys: System)
    requires sys.task.Installing?
    ensures BringsBack(sys, Install) <==> ResurrectsAny(sys.db, sys.task.action)
  {
    hide ResurrectsKey;
    var at := SmallestSnapshot(sys.db);
    forall u ensures InstallingResurrects(sys, at, u) <==>
                     sys.task.action.Compact? && sys.task.action.level + 1 < NUM_LEVELS
                     && ResurrectsKey(sys.db, sys.task.action.level, sys.task.action.inputs0, sys.task.action.inputs1,
                         sys.task.action.oldest, at, u)
    {
    }
  }

  lemma {:induction false} SnapshotEnabled(st: State, a: Action, o: Options)
    requires a.GetSnapshot? || (a.ReleaseSnapshot? && a.at < |st.snapshots|)
    ensures Enabled(st, a, o)
  {
  }

  /** One step more agrees with what was acknowledged, if and only if it brings no key back. */
  lemma {:induction false} NextAgrees(systems: seq<System>, events: seq<Event>, o: Options, i: nat)
    requires IsDurableRun(systems, events, o) && i < |events|
        && AgreesWith(systems[i].db, Acknowledged(systems, events, o, i))
    ensures AgreesWith(systems[i + 1].db, Acknowledged(systems, events, o, i + 1))
        <==> !BringsBack(systems[i], events[i])
  {
    hide Consistent, Can, Next, AgreesWith, InstallingResurrects, Untouched;
    DurableRunKeeps(systems, events, o, i);
    var sys, history := systems[i], Acknowledged(systems, events, o, i);
    match events[i]
    case ApplyWrite => ApplyAgrees(sys, history, o);
    case Restart(_, _, _, _, _) => RestartAgrees(sys, history, events[i], o);
    case _ => StepAgrees(sys, history, events[i], o);
  }

  lemma {:induction false} AgreesTo(systems: seq<System>, events: seq<Event>, o: Options, i: nat)
    requires IsDurableRun(systems, events, o) && i < |systems|
        && forall j | 0 <= j < |events| :: !BringsBack(systems[j], events[j])
    ensures AgreesWith(systems[i].db, Acknowledged(systems, events, o, i))
  {
    hide Can, Next, AgreesWith, BringsBack, Acknowledged;
    if i == 0 {
      InitialAgrees();
      NothingAcknowledged(systems, events, o);
    } else {
      AgreesTo(systems, events, o, i - 1);
      NextAgrees(systems, events, o, i - 1);
    }
  }

  lemma {:induction false} NothingAcknowledged(systems: seq<System>, events: seq<Event>, o: Options)
    requires IsDurableRun(systems, events, o)
    ensures Acknowledged(systems, events, o, 0) == {} && systems[0].db == INITIAL
  {
  }

  /** Whatever crashes a run has: every read that a reader may do, in every state, returns what the
      acknowledged writes say, if and only if no compaction brings a deleted key back. */
  lemma {:induction false} NoAcknowledgedWriteIsLost(systems: seq<System>, events: seq<Event>, o: Options)
    requires IsDurableRun(systems, events, o)
    ensures (forall i | 0 <= i < |systems| :: AgreesWith(systems[i].db, Acknowledged(systems, events, o, i)))
            <==> forall j | 0 <= j < |events| :: !BringsBack(systems[j], events[j])
  {
    hide Can, Next, AgreesWith, BringsBack, Acknowledged, IsDurableRun;
    DurableLength(systems, events, o);
    if forall j | 0 <= j < |events| :: !BringsBack(systems[j], events[j]) {
      forall i | 0 <= i < |systems| ensures AgreesWith(systems[i].db, Acknowledged(systems, events, o, i)) {
        AgreesTo(systems, events, o, i);
      }
    } else {
      var j :| 0 <= j < |events| && BringsBack(systems[j], events[j]);
      if AgreesWith(systems[j].db, Acknowledged(systems, events, o, j)) {
        NextAgrees(systems, events, o, j);
        assert !AgreesWith(systems[j + 1].db, Acknowledged(systems, events, o, j + 1));
      }
    }
  }

  lemma {:induction false} DurableLength(systems: seq<System>, events: seq<Event>, o: Options)
    requires IsDurableRun(systems, events, o)
    ensures |systems| == |events| + 1
  {
  }
}
