/** Invariance over every step, what each step does to reads, and whole runs. */
module DatabaseRuns {
  import opened Format
  import opened Versions
  import opened VersionBuilder
  import opened CompactionInputs
  import opened CompactionWork
  import opened Database
  import opened DatabaseInvariant

  // ---------- Memtable writes ----------

  lemma {:induction false} InsertBatchHolds(mem: seq<Entry>, ops: seq<Op>, first: nat)
    requires first + |ops| <= MAX_SEQUENCE + 1 && Sorted(mem)
    requires forall x | x in mem :: x.key.sequence < first
    ensures Sorted(InsertBatch(mem, ops, first))
    ensures SetOf(InsertBatch(mem, ops, first)) == SetOf(mem) + BatchSet(ops, first)
  {
    hide Sorted, InsertEntry, BatchSet;
    if ops == [] {
      NoOpsNoEntries(first);
      assert SetOf(mem) + {} == SetOf(mem);
    } else {
      var n := |ops| - 1;
      var e := EntryOf(ops[n], first + n);
      assert e.key.sequence == first + n;
      InsertBatchHolds(mem, ops[..n], first);
      BatchSetSnoc(ops, first);
      var before := InsertBatch(mem, ops[..n], first);
      forall x | x in before ensures x.key != e.key {
        assert x in SetOf(before);
        assert x in mem || x in BatchSet(ops[..n], first);
      }
      InsertEntryHolds(before, e);
      assert SetOf(mem) + (BatchSet(ops[..n], first) + {e}) == SetOf(before) + {e};
    }
  }

  lemma {:induction false} NoOpsNoEntries(first: nat)
    requires first <= MAX_SEQUENCE + 1
    ensures BatchSet([], first) == {}
  {
  }

  lemma {:induction false} BatchSetSnoc(ops: seq<Op>, first: nat)
    requires first + |ops| <= MAX_SEQUENCE + 1 && ops != []
    ensures BatchSet(ops, first) == BatchSet(ops[..|ops| - 1], first) + {EntryOf(ops[|ops| - 1], first + |ops| - 1)}
    ensures forall x | x in BatchSet(ops[..|ops| - 1], first) :: x.key.sequence < first + |ops| - 1
  {
    var n := |ops| - 1;
    var front := ops[..n];
    forall i | 0 <= i < n ensures EntryOf(ops[i], first + i) in BatchSet(front, first) {
      assert front[i] == ops[i];
    }
  }

  lemma {:induction false} BatchSequences(ops: seq<Op>, first: nat)
    requires first + |ops| <= MAX_SEQUENCE + 1
    ensures forall x | x in BatchSet(ops, first) :: first <= x.key.sequence < first + |ops|
    ensures Distinct(BatchSet(ops, first))
  {
  }

  /** Entries with sequence numbers past all others are newer and stay distinct. */
  lemma {:induction false} FreshEntries(all: set<Entry>, batch: set<Entry>, last: nat)
    requires Distinct(all) && forall e | e in all :: e.key.sequence <= last
    requires Distinct(batch) && forall e | e in batch :: e.key.sequence > last
    ensures Distinct(all + batch) && Newer(batch, all)
  {
  }

  lemma {:induction false} NewerUnion(a: set<Entry>, b: set<Entry>, c: set<Entry>)
    requires Newer(a, c) && Newer(b, c)
    ensures Newer(a + b, c)
  {
  }

  lemma {:induction false} WriteKeepsInv(st: State, ops: seq<Op>, o: Options)
    requires Inv(st) && Enabled(st, Write(ops), o)
    ensures Inv(After(st, Write(ops), o))
    ensures All(After(st, Write(ops), o)) == All(st) + BatchSet(ops, st.lastSequence + 1)
  {
    hide VersionOk, FilesOk, AllEntries, Sorted, Newer, Distinct, BatchSet, InsertBatch;
    var first := st.lastSequence + 1;
    var after := After(st, Write(ops), o);
    var batch := BatchSet(ops, first);
    forall x | x in st.mem ensures x.key.sequence < first {
      assert x in All(st);
    }
    InsertBatchHolds(st.mem, ops, first);
    BatchSequences(ops, first);
    FreshEntries(All(st), batch, st.lastSequence);
    NewerMonotone(batch, All(st), batch, ImmSet(st));
    NewerMonotone(batch, All(st), batch, TableSet(st));
    NewerUnion(SetOf(st.mem), batch, ImmSet(st));
    NewerUnion(SetOf(st.mem), batch, TableSet(st));
    assert All(after) == All(st) + batch;
  }

  lemma {:induction false} SwitchKeepsInv(st: State, o: Options)
    requires Inv(st) && Enabled(st, SwitchMemTable, o)
    ensures Inv(After(st, SwitchMemTable, o))
    ensures All(After(st, SwitchMemTable, o)) == All(st)
  {
    hide VersionOk, FilesOk, AllEntries;
    var after := After(st, SwitchMemTable, o);
    assert All(after) == All(st);
  }

  lemma {:induction false} SnapshotKeepsInv(st: State, a: Action, o: Options)
    requires Inv(st) && Enabled(st, a, o) && (a.GetSnapshot? || a.ReleaseSnapshot?)
    ensures Inv(After(st, a, o))
    ensures All(After(st, a, o)) == All(st)
    ensures a.ReleaseSnapshot? ==> SmallestSnapshot(st) <= SmallestSnapshot(After(st, a, o))
    ensures a.GetSnapshot? ==> SmallestSnapshot(After(st, a, o)) == SmallestSnapshot(st)
  {
    hide VersionOk, FilesOk, AllEntries, Newer, Distinct;
    var after := After(st, a, o);
    assert All(after) == All(st) && AgesOk(after) && SequencesOk(after);
  }

  // ---------- Flushes, moves and compactions ----------

  lemma {:induction false} FlushKeepsInv(st: State, level: nat, number: nat, o: Options)
    requires Inv(st) && Enabled(st, CompactMemTable(level, number), o)
    ensures Inv(After(st, CompactMemTable(level, number), o))
    ensures All(After(st, CompactMemTable(level, number), o)) == All(st)
  {
    hide VersionOk, FilesOk, AllEntries, Edited, NoOverlap, MayGoDown;
    var after := After(st, CompactMemTable(level, number), o);
    if st.imm.value == [] {
      assert ImmSet(st) == {};
      assert FilesOk(after.levels, after.nextFile) by { MoreNumbers(st.levels, st.nextFile, number + 1); }
      assert All(after) == All(st);
    } else {
      var f: File := Table(number, o.builtSize(st.imm.value), st.imm.value);
      assert AllEntries(st.levels, 0) + SetOf(f.entries) <= All(st);
      FlushLevelIsClear(st.levels, Smallest(f).user, Largest(f).user, o.maxFileSize, level);
      FlushedVersion(st.levels, st.nextFile, level, f);
      assert All(after) == All(st);
    }
  }

  lemma {:induction false} MoreNumbers(levels: Levels, nextFile: nat, nextFile': nat)
    requires FilesOk(levels, nextFile) && nextFile <= nextFile'
    ensures FilesOk(levels, nextFile')
  {
  }

  lemma {:induction false} MoveKeepsInv(st: State, level: nat, f: File, o: Options)
    requires Inv(st) && Enabled(st, TrivialMove(level, f), o)
    ensures Inv(After(st, TrivialMove(level, f), o))
    ensures All(After(st, TrivialMove(level, f), o)) == All(st)
  {
    hide VersionOk, FilesOk, AllEntries, Edited, InputsOk, Replaced, Newer, Distinct;
    MovedVersion(st.levels, st.nextFile, level, f);
    var after := After(st, TrivialMove(level, f), o);
    assert All(after) == All(st) && AgesOk(after) && SequencesOk(after);
  }

  /** What a compaction writes, as a run and as a set. */
  lemma {:induction false} CompactionWrites(st: State, level: nat, in0: seq<File>, in1: seq<File>,
      oldest: SequenceNumber, input: seq<Entry>, outs: seq<File>, o: Options)
    requires Enabled(st, Compact(level, in0, in1, oldest, input, outs), o)
    ensures Sorted(Written(outs)) && SetOf(Written(outs)) <= EntriesOf(in0 + in1)
  {
    hide InputsOk, Written, Sorted, Survivors, EntriesOf;
    SurvivorsSorted(st.levels, level, input, |input|, oldest);
    forall e | e in Written(outs) ensures e in EntriesOf(in0 + in1) {
      var j :| 0 <= j < |Written(outs)| && Written(outs)[j] == e;
      assert e in SetOf(input);
    }
  }

  lemma {:induction false} CompactKeepsInv(st: State, level: nat, in0: seq<File>, in1: seq<File>,
      oldest: SequenceNumber, input: seq<Entry>, outs: seq<File>, o: Options)
    requires Inv(st) && Enabled(st, Compact(level, in0, in1, oldest, input, outs), o)
    ensures Inv(After(st, Compact(level, in0, in1, oldest, input, outs), o))
    ensures All(After(st, Compact(level, in0, in1, oldest, input, outs), o)) <= All(st)
    ensures Replaced(st.levels, After(st, Compact(level, in0, in1, oldest, input, outs), o).levels, level, in0, in1,
        outs)
  {
    hide VersionOk, FilesOk, AllEntries, Edited, InputsOk, Replaced, Written, Survivors, IsInput;
    CompactionWrites(st, level, in0, in1, oldest, input, outs, o);
    CompactedVersion(st.levels, st.nextFile, level, in0, in1, outs);
    var after := After(st, Compact(level, in0, in1, oldest, input, outs), o);
    assert TableSet(after) <= TableSet(st);
  }

  /** Every enabled step keeps the invariant. */
  lemma {:induction false} StepKeepsInv(st: State, a: Action, o: Options)
    requires Inv(st) && Enabled(st, a, o)
    ensures Inv(After(st, a, o))
  {
    hide Inv, After, Enabled;
    match a
    case Write(ops) => WriteKeepsInv(st, ops, o);
    case SwitchMemTable => SwitchKeepsInv(st, o);
    case CompactMemTable(level, number) => FlushKeepsInv(st, level, number, o);
    case TrivialMove(level, f) => MoveKeepsInv(st, level, f, o);
    case Compact(level, in0, in1, oldest, input, outs) => CompactKeepsInv(st, level, in0, in1, oldest, input, outs, o);
    case GetSnapshot => SnapshotKeepsInv(st, a, o);
    case ReleaseSnapshot(_) => SnapshotKeepsInv(st, a, o);
  }
}
