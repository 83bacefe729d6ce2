/** The logs of the durable store as bytes: reading them back after a crash, torn anywhere. */
module DurabilityLogs {
  import opened Format
  import opened Coding
  import opened Versions
  import opened Database
  import opened DatabaseInvariant
  import opened Durability
  import opened DurabilityRestart
  import opened DurabilityRuns
  import opened KeyEncoding
  import opened LogFormat
  import opened LogReader
  import opened LogRoundTrip
  import Batches = WriteBatches

  // ---------- Reading a log ----------

  /** What recovery takes from one record of a log. */
  datatype ByteBatch = ByteBatch(sequence: nat, count: nat, records: seq<Batches.Record>)

  /** A record too short for a header is dropped; of a malformed batch the front part is used. */
  function BatchesIn(records: seq<Bytes>): seq<ByteBatch> {
    if records == [] then []
    else
      var front, last := BatchesIn(records[..|records| - 1]), records[|records| - 1];
      if |last| < Batches.HEADER_SIZE then front
      else front + [ByteBatch(Batches.SequenceOf(last), Batches.CountOf(last), Batches.Iterated(last).0)]
  }

  function ReadLog(file: Bytes): seq<ByteBatch> {
    BatchesIn(ReadAll(file, 0).0)
  }

  /** The last sequence number of a batch, in 64 bits; the count is signed. */
  function LastSequence(b: ByteBatch): nat {
    (b.sequence + (if b.count < 0x8000_0000 then b.count else b.count - TWO_32) - 1) % TWO_64
  }

  function MaxSequence(batches: seq<ByteBatch>): nat {
    if batches == [] then 0
    else
      var before, last := MaxSequence(batches[..|batches| - 1]), LastSequence(batches[|batches| - 1]);
      if last > before then last else before
  }

  lemma {:induction false} BatchesSnoc(records: seq<Bytes>, last: Bytes)
    ensures BatchesIn(records + [last])
         == BatchesIn(records)
            + if |last| < Batches.HEADER_SIZE then []
              else [ByteBatch(Batches.SequenceOf(last), Batches.CountOf(last), Batches.Iterated(last).0)]
  {
    assert (records + [last])[..|records|] == records;
    assert BatchesIn(records) + [] == BatchesIn(records);
  }

  /** Read record by record, and iterate over the batch in each. Corruption is reported, and what can
      be read is used. */
  method RecoverLogFile(file: Bytes) returns (batches: seq<ByteBatch>, maxSequence: nat)
    ensures batches == ReadLog(file)
    ensures maxSequence == MaxSequence(batches)
  {
    hide ReadFrom, Batches.Iterated, Batches.SequenceOf, Batches.CountOf, BatchesIn;
    var reader := new Reader(file);
    ghost var records: seq<Bytes> := [];
    batches, maxSequence := [], 0;
    assert BatchesIn([]) == [] by { NoBatches(); }
    assert [] + ReadAll(file, 0).0 == ReadAll(file, 0).0;
    while true
      invariant fresh(reader) && reader.Valid() && reader.file == file
      invariant ReadAll(file, 0).0 == records + ReadAll(file, reader.Pos()).0 && batches == BatchesIn(records)
      invariant maxSequence == MaxSequence(batches)
      decreases |file| - reader.Pos()
    {
      ghost var pos := reader.Pos();
      var record := reader.ReadRecord();
      OneMoreRead(file, pos);
      if record.None? {
        assert records + [] == records;
        return;
      }
      assert records + ([record.value] + ReadAll(file, reader.Pos()).0)
          == (records + [record.value]) + ReadAll(file, reader.Pos()).0;
      BatchesSnoc(records, record.value);
      records := records + [record.value];
      if |record.value| < Batches.HEADER_SIZE {
        assert batches + [] == batches;
        continue;
      }
      var told, error := Batches.Iterate(record.value);
      var batch := ByteBatch(Batches.SequenceOf(record.value), Batches.CountOf(record.value), told);
      ghost var before := batches;
      batches := batches + [batch];
      assert batches[..|before|] == before;
      var lastSequence := LastSequence(batch);
      if lastSequence > maxSequence {
        maxSequence := lastSequence;
      }
    }
  }

  lemma {:induction false} NoBatches()
    ensures BatchesIn([]) == []
  {
  }

  lemma {:induction false} OneMoreRead(file: Bytes, pos: nat)
    requires pos <= |file|
    ensures var r := ReadFrom(file, pos, false, []);
            ReadAll(file, pos).0 == if r.record.None? then [] else [r.record.value] + ReadAll(file, r.next).0
  {
    hide ReadFrom;
  }

  // ---------- The bytes of a log ----------

  function BatchBytes(names: Naming, r: Logged): Bytes {
    Batches.EncodedBatch(r.first, Batches.RecordsOf(names, r.ops))
  }

  function RecordBytes(names: Naming, log: seq<Logged>): seq<Bytes> {
    seq(|log|, i requires 0 <= i < |log| => BatchBytes(names, log[i]))
  }

  function LogBytes(names: Naming, log: seq<Logged>): Bytes {
    Log(0, RecordBytes(names, log))
  }

  /** Operations as a log can hold them. */
  ghost predicate FitsBatch(names: Naming, ops: seq<Op>) {
    |ops| < 0x8000_0000 && forall i | 0 <= i < |ops| :: Batches.FitsRecord(Batches.RecordOf(names, ops[i]))
  }

  ghost predicate FitsLog(names: Naming, log: seq<Logged>) {
    forall i | 0 <= i < |log| :: FitsBatch(names, log[i].ops)
  }

  function ByteBatchOf(names: Naming, r: Logged): ByteBatch {
    ByteBatch(r.first, |r.ops|, Batches.RecordsOf(names, r.ops))
  }

  function ByteBatches(names: Naming, log: seq<Logged>): seq<ByteBatch> {
    seq(|log|, i requires 0 <= i < |log| => ByteBatchOf(names, log[i]))
  }

  lemma {:induction false} BatchReads(names: Naming, r: Logged)
    requires FitsBatch(names, r.ops)
    ensures var b := BatchBytes(names, r);
            && |b| >= Batches.HEADER_SIZE
            && ByteBatch(Batches.SequenceOf(b), Batches.CountOf(b), Batches.Iterated(b).0) == ByteBatchOf(names, r)
    ensures LastSequence(ByteBatchOf(names, r)) == if r.first + |r.ops| > 0 then r.first + |r.ops| - 1 else TWO_64 - 1
  {
    hide Batches.EncodedBatch, Batches.Iterated, Batches.SequenceOf, Batches.CountOf, Batches.FitsRecord,
        Batches.RecordOf;
    Batches.BatchRoundTrip(r.first, Batches.RecordsOf(names, r.ops));
  }

  lemma {:induction false} LogReads(names: Naming, log: seq<Logged>, k: nat)
    requires FitsLog(names, log) && k <= |log|
    ensures BatchesIn(RecordBytes(names, log)[..k]) == ByteBatches(names, log[..k])
    decreases k
  {
    hide FitsBatch, BatchBytes, ByteBatchOf, Batches.Iterated, Batches.SequenceOf, Batches.CountOf;
    if k > 0 {
      var records := RecordBytes(names, log);
      LogReads(names, log, k - 1);
      BatchReads(names, log[k - 1]);
      BatchesSnoc(records[..k - 1], records[k - 1]);
      assert records[..k] == records[..k - 1] + [records[k - 1]];
      assert log[..k] == log[..k - 1] + [log[k - 1]];
      assert ByteBatches(names, log[..k]) == ByteBatches(names, log[..k - 1]) + [ByteBatchOf(names, log[k - 1])];
    }
  }

  /** A log cut off anywhere reads back as the batches that are whole in it. */
  lemma {:induction false} TornLog(names: Naming, log: seq<Logged>, n: nat)
    requires FitsLog(names, log) && n <= |LogBytes(names, log)|
    ensures ReadLog(LogBytes(names, log)[..n]) == ByteBatches(names, log[..Whole(0, RecordBytes(names, log), n)])
    ensures ReadAll(LogBytes(names, log)[..n], 0).1 == []
  {
    hide FitsLog, BatchBytes, Log, Whole, ReadAll, BatchesIn, ByteBatchOf;
    TornTail(RecordBytes(names, log), n);
    LogReads(names, log, Whole(0, RecordBytes(names, log), n));
  }

  /** What is read back says which operations were logged. */
  lemma {:induction false} BatchesTellLog(names: Naming, users: set<UserKey>, a: seq<Logged>, b: seq<Logged>)
    requires Ranks(names, users) && ByteBatches(names, a) == ByteBatches(names, b)
    requires forall i, j | 0 <= i < |a| && 0 <= j < |a[i].ops| :: a[i].ops[j].user in users
    requires forall i, j | 0 <= i < |b| && 0 <= j < |b[i].ops| :: b[i].ops[j].user in users
    ensures a == b
  {
    hide Ranks, Batches.RecordsOf;
    assert |a| == |ByteBatches(names, a)| == |ByteBatches(names, b)| == |b|;
    forall i | 0 <= i < |a| ensures a[i] == b[i] {
      assert ByteBatches(names, a)[i] == ByteBatches(names, b)[i];
      Batches.RecordsTellOps(names, users, a[i].ops, b[i].ops);
    }
  }

  // ---------- Restarting ----------

  /** The system as it would be had the current log ended after k batches. */
  function WithLog(sys: System, k: nat): System
    requires sys.logfileNumber in sys.disk.logs && k <= |sys.disk.logs[sys.logfileNumber]|
  {
    sys.(disk := sys.disk.(logs := sys.disk.logs[sys.logfileNumber := sys.disk.logs[sys.logfileNumber][..k]]))
  }

  /** The batches of the current log behind the first k. */
  function Lost(sys: System, k: nat): seq<Logged>
    requires sys.logfileNumber in sys.disk.logs && k <= |sys.disk.logs[sys.logfileNumber]|
  {
    sys.disk.logs[sys.logfileNumber][k..]
  }

  lemma {:induction false} ReplaysLess(sys: System, k: nat, left: Leftovers, logs: seq<nat>, o: Options)
    requires Consistent(sys, o) && sys.logfileNumber in sys.disk.logs && k <= |sys.disk.logs[sys.logfileNumber]|
    requires var disk := WithLog(sys, k).disk; CanBeLeft(disk, left) && LogsToReplay(WithLeftovers(disk, left), logs)
    ensures (forall n | n in logs :: n in WithLeftovers(WithLog(sys, k).disk, left).logs)
    ensures sys.db.imm.Some? ==> sys.logNumber in sys.disk.logs
    ensures Unsaved(sys) == Contents(WithLeftovers(WithLog(sys, k).disk, left), logs) + Lost(sys, k)
  {
    hide Consistent, Unsaved, Concat;
    var torn, log := WithLog(sys, k), sys.disk.logs[sys.logfileNumber];
    var n := OldLogsFirst(torn.disk, left, logs);
    LeftoversAddNothing(torn.disk, left, logs, n);
    AllOnDisk(torn.disk, logs[..n]);
    SameLogs(torn.disk, left, logs[..n]);
    AllOnDisk(WithLeftovers(torn.disk, left), logs);
    assert LogsToReplay(sys.disk, logs[..n]);
    UnsavedOrdered(sys, o);
    ReplaysUnsaved(sys, logs[..n], o);
    assert log == log[..k] + log[k..];
    if logs[..n] == [sys.logfileNumber] {
      ContentsOne(sys.disk, sys.logfileNumber);
      ContentsOne(torn.disk, sys.logfileNumber);
    } else {
      ContentsTwo(sys.disk, sys.logNumber, sys.logfileNumber);
      ContentsTwo(torn.disk, sys.logNumber, sys.logfileNumber);
    }
  }

  lemma {:induction false} ContentsOne(disk: Disk, a: nat)
    requires a in disk.logs
    ensures Contents(disk, [a]) == disk.logs[a]
  {
    hide Concat;
    ConcatOne(disk.logs[a]);
    assert seq(1, i requires 0 <= i < 1 => disk.logs[[a][i]]) == [disk.logs[a]];
  }

  lemma {:induction false} ContentsTwo(disk: Disk, a: nat, b: nat)
    requires a in disk.logs && b in disk.logs
    ensures Contents(disk, [a, b]) == disk.logs[a] + disk.logs[b]
  {
    hide Concat;
    ConcatTwo(disk.logs[a], disk.logs[b]);
    assert seq(2, i requires 0 <= i < 2 => disk.logs[[a, b][i]]) == [disk.logs[a], disk.logs[b]];
  }

  lemma {:induction false} LastOfPrefix(a: seq<Logged>, b: seq<Logged>, m: SequenceNumber)
    ensures LastOf(a, m) <= LastOf(a + b, m)
    decreases |b|
  {
    if b == [] {
      assert a + b == a;
    } else {
      LastOfPrefix(a, b[..|b| - 1], m);
      assert (a + b)[..|a + b| - 1] == a + b[..|b| - 1];
    }
  }

  /** Had the log ended earlier, a restart would find the same without the operations lost. */
  lemma {:induction false} RestartWithLess(sys: System, k: nat, ev: Event, o: Options)
    requires Consistent(sys, o) && sys.logfileNumber in sys.disk.logs && k <= |sys.disk.logs[sys.logfileNumber]|
    requires ev.Restart? && Can(WithLog(sys, k), ev, o)
    ensures var db := Next(WithLog(sys, k), ev, o).db;
            && Inv(db) && Newer(Entries(Lost(sys, k)), All(db))
            && All(db) + Entries(Lost(sys, k)) == All(Settled(sys, o)) + Batch(sys.db, sys.inFlight)
  {
    hide Consistent, AllEntries, Entries, Unsaved, LastOf, Batch, VersionOk, FilesOk, Settled, Newer, Distinct, Inv,
        Concat, Contents, LogsToReplay, All, WithRecovered, Ordered, RecoveredTables, WithTables, WithLeftovers,
        CanBeLeft, Lost;
    var torn, m, lost := WithLog(sys, k), sys.disk.manifest, Lost(sys, k);
    RestartParts(torn, ev, o);
    hide Can, Next;
    ReplaysLess(sys, k, ev.left, ev.logs, o);
    UnsavedFacts(sys, o);
    var records := Contents(WithLeftovers(torn.disk, ev.left), ev.logs);
    var tables := AllEntries(m.levels, 0);
    EntriesConcat(records, lost);
    OrderedIsNewer(records, lost);
    NewerMonotone(Entries(records + lost), tables, Entries(records), tables);
    NewerMonotone(Entries(records + lost), tables, Entries(lost), tables);
    NewerThanBoth(Entries(lost), tables, Entries(records));
    DistinctSubset(tables + Entries(records + lost), tables + Entries(records));
    LastOfPrefix(records, lost, m.lastSequence);
    RecoveredState(m, records, ev.chunks, ev.numbers, ev.newLog, o);
    assert tables + Entries(records) + Entries(lost) == tables + (Entries(records) + Entries(lost));
  }

  lemma {:induction false} RecordsOfPrefix(names: Naming, log: seq<Logged>, k: nat)
    requires k <= |log|
    ensures |RecordBytes(names, log)| == |log| && RecordBytes(names, log)[..k] == RecordBytes(names, log[..k])
  {
    hide BatchBytes;
  }

  /** A machine may go down with any part of the current log not yet on disk. However many bytes of it
      are left, a restart reads the batches that are whole in them, and finds the store without the
      operations of the others, which are the newest. */
  lemma {:induction false} RestartFromPrefix(names: Naming, sys: System, n: nat, ev: Event, o: Options)
    requires Consistent(sys, o) && sys.logfileNumber in sys.disk.logs
    requires var log := sys.disk.logs[sys.logfileNumber]; FitsLog(names, log) && n <= |LogBytes(names, log)|
    requires ev.Restart?
        && Can(WithLog(sys, Whole(0, RecordBytes(names, sys.disk.logs[sys.logfileNumber]), n)), ev, o)
    ensures var log := sys.disk.logs[sys.logfileNumber];
            var k := Whole(0, RecordBytes(names, log), n);
            && ReadLog(LogBytes(names, log)[..n]) == ByteBatches(names, log[..k])
            && (forall j | 0 <= j <= |log| :: j <= k <==> |LogBytes(names, log[..j])| <= n)
            && var db := Next(WithLog(sys, k), ev, o).db;
               && Inv(db) && Newer(Entries(Lost(sys, k)), All(db))
               && All(db) + Entries(Lost(sys, k)) == All(Settled(sys, o)) + Batch(sys.db, sys.inFlight)
  {
    hide FitsLog, RecordBytes, ReadLog, ByteBatches, Whole, Log, Consistent, WithLog, Lost, Can, Next, Inv, All,
        Entries, Newer, Settled, Batch;
    var log := sys.disk.logs[sys.logfileNumber];
    RecordsOfPrefix(names, log, 0);
    var k := Whole(0, RecordBytes(names, log), n);
    TornLog(names, log, n);
    forall j | 0 <= j <= |log| ensures j <= k <==> |LogBytes(names, log[..j])| <= n {
      RecordsOfPrefix(names, log, j);
      WholeIsByEnd(0, RecordBytes(names, log), n, j);
    }
    RestartWithLess(sys, k, ev, o);
  }

  lemma {:induction false} LogAfterWrite(sys: System, ops: seq<Op>, o: Options)
    requires Consistent(sys, o) && Can(sys, LogWrite(ops), o)
    ensures sys.logfileNumber in sys.disk.logs && sys.inFlight.None?
    ensures var first, sys' := sys.db.lastSequence + 1, Next(sys, LogWrite(ops), o);
            var log := sys.disk.logs[sys.logfileNumber];
            && first + |ops| <= MAX_SEQUENCE + 1 && sys'.logfileNumber == sys.logfileNumber
                && sys.logfileNumber in sys'.disk.logs
            && sys'.disk.logs[sys.logfileNumber] == log + [LogRecord(first, ops)]
            && Settled(sys', o) == Settled(sys, o)
            && Batch(sys'.db, sys'.inFlight) == BatchSet(ops, first) && Batch(sys.db, sys.inFlight) == {}
  {
    hide Consistent, BatchSet, After;
  }

  lemma {:induction false} TornLast(names: Naming, before: seq<Logged>, last: Logged, n: nat)
    requires FitsLog(names, before + [last])
    requires |LogBytes(names, before)| <= n <= |LogBytes(names, before + [last])|
    ensures var file := LogBytes(names, before + [last]);
            ReadLog(file[..n]) == ByteBatches(names, if n < |file| then before else before + [last])
  {
    hide FitsLog, RecordBytes, ReadLog, ByteBatches, Whole, Log;
    var log := before + [last];
    RecordsOfPrefix(names, log, |before|);
    assert log[..|before|] == before && log[..|log|] == log;
    TornLog(names, log, n);
    if n < |LogBytes(names, log)| {
      AllButLastWhole(RecordBytes(names, log), n);
    } else {
      AllWhole(RecordBytes(names, log));
    }
  }

  /** A crash while a batch is being logged: unless all its bytes are written, a restart finds the
      store without it, and otherwise with it. */
  lemma {:induction false} TornWrite(names: Naming, sys: System, ops: seq<Op>, n: nat, ev: Event, o: Options)
    requires Consistent(sys, o) && Can(sys, LogWrite(ops), o)
    requires var before, log := sys.disk.logs[sys.logfileNumber],
                                Next(sys, LogWrite(ops), o).disk.logs[sys.logfileNumber];
             && FitsLog(names, log) && |LogBytes(names, before)| <= n <= |LogBytes(names, log)|
             && ev.Restart?
             && Can(if n < |LogBytes(names, log)| then sys else Next(sys, LogWrite(ops), o), ev, o)
    ensures var file := LogBytes(names, Next(sys, LogWrite(ops), o).disk.logs[sys.logfileNumber]);
            var found := if n < |file| then sys else Next(sys, LogWrite(ops), o);
            && ReadLog(file[..n]) == ByteBatches(names, found.disk.logs[sys.logfileNumber])
            && var db := Next(found, ev, o).db;
               && Inv(db)
               && All(db) == All(Settled(sys, o)) + if n < |file| then {} else BatchSet(ops, sys.db.lastSequence + 1)
  {
    LogAfterWrite(sys, ops, o);
    var sys' := Next(sys, LogWrite(ops), o);
    hide FitsLog, ReadLog, ByteBatches, LogBytes, Consistent, WithLog, Can, Next, Inv, All, Settled, Batch, BatchSet;
    var before, log := sys.disk.logs[sys.logfileNumber], sys'.disk.logs[sys.logfileNumber];
    TornLast(names, before, log[|before|], n);
    StepKeepsConsistent(sys, LogWrite(ops), o);
    RestartRecovers(if n < |LogBytes(names, log)| then sys else sys', ev, o);
  }
}
