/** The store as an object: each operation takes one step of the state machine. */
module DbImpl {
  import opened Format
  import opened Versions
  import opened VersionBuilder
  import opened CompactionInputs
  import opened CompactionWork
  import opened CompactionReads
  import opened Database
  import opened DatabaseInvariant
  import opened DatabaseRuns
  import opened DatabaseReads
  import opened Merger

  // ---------- The input iterator of a compaction ----------

  /** Level-0 inputs are merged file by file; the inputs of any other level are concatenated. */
  function InputRuns(level: nat, in0: seq<File>, in1: seq<File>): seq<seq<Entry>> {
    (if level == 0 then seq(|in0|, i requires 0 <= i < |in0| => in0[i].entries) else [Written(in0)])
    + (if in1 == [] then [] else [Written(in1)])
  }

  lemma {:induction false} ConcatenationSorted(files: seq<File>)
    requires LevelSorted(files)
    ensures Sorted(Written(files)) && forall e :: e in Written(files) <==> e in EntriesOf(files)
  {
    hide LevelSorted, EntriesOf, Less, Sorted;
    if files == [] {
      assert EntriesOf(files) == {} by { NoFilesNoEntries(); }
      assert Sorted([]) by { EmptySorted(); }
    } else {
      var n := |files| - 1;
      var front, last := files[..n], files[n];
      assert LevelSorted(front) by { SliceSorted(files, 0, n); }
      ConcatenationSorted(front);
      assert files == front + [last];
      EntriesOfBoth(front, [last]);
      OneFileEntries(last);
      forall i | 0 <= i < |Written(front)| ensures Less(Written(front)[i].key, Smallest(last)) {
        assert Written(front)[i] in EntriesOf(front);
        BeforeLastFile(files, Written(front)[i]);
      }
      SortedAppend(Written(front), last.entries);
    }
  }

  lemma {:induction false} NoFilesNoEntries()
    ensures EntriesOf([]) == {}
  {
  }

  lemma {:induction false} EmptySorted()
    ensures Sorted([])
  {
  }

  lemma {:induction false} OneFileEntries(f: File)
    ensures EntriesOf([f]) == SetOf(f.entries)
  {
    assert f in [f];
  }

  lemma {:induction false} BeforeLastFile(files: seq<File>, e: Entry)
    requires LevelSorted(files) && files != [] && e in EntriesOf(files[..|files| - 1])
    ensures Less(e.key, Smallest(files[|files| - 1]))
  {
    var f :| f in files[..|files| - 1] && e in f.entries;
    var i :| 0 <= i < |files| - 1 && files[i] == f;
    EntryWithinFile(f, e);
  }

  lemma {:induction false} SortedAppend(a: seq<Entry>, b: seq<Entry>)
    requires Sorted(a) && Sorted(b) && b != []
    requires forall i | 0 <= i < |a| :: Less(a[i].key, b[0].key)
    ensures Sorted(a + b)
  {
  }

  /** Where an input entry comes from: one level, and at level 0 one file. */
  lemma {:induction false} InputRunsHold(level: nat, in0: seq<File>, in1: seq<File>, e: Entry)
    requires level > 0 ==> LevelSorted(in0)
    requires LevelSorted(in1)
    ensures (exists p: (nat, nat) :: PlaceOf(InputRuns(level, in0, in1), e, p)) <==> e in EntriesOf(in0 + in1)
  {
    hide LevelSorted, EntriesOf, Sorted, Written;
    var runs := InputRuns(level, in0, in1);
    EntriesOfBoth(in0, in1);
    ConcatenationSorted(in1);
    if level > 0 {
      ConcatenationSorted(in0);
    }
    if in1 == [] {
      NoFilesNoEntries();
    }
    if p: (nat, nat) :| PlaceOf(runs, e, p) {
      if level == 0 && p.0 < |in0| {
        FileEntriesIn(in0, p.0, e);
      }
    }
    if e in EntriesOf(in1) {
      var j :| 0 <= j < |Written(in1)| && Written(in1)[j] == e;
      assert PlaceOf(runs, e, (|runs| - 1, j));
    } else if e in EntriesOf(in0) {
      if level == 0 {
        var i, j := EntryPlace(in0, e);
        assert PlaceOf(runs, e, (i, j));
      } else {
        var j :| 0 <= j < |Written(in0)| && Written(in0)[j] == e;
        assert PlaceOf(runs, e, (0, j));
      }
    }
  }

  lemma {:induction false} FileEntriesIn(files: seq<File>, i: nat, e: Entry)
    requires i < |files| && e in files[i].entries
    ensures e in EntriesOf(files)
  {
  }

  lemma {:induction false} EntryPlace(files: seq<File>, e: Entry) returns (i: nat, j: nat)
    requires e in EntriesOf(files)
    ensures i < |files| && j < |files[i].entries| && files[i].entries[j] == e
  {
    var f :| f in files && e in f.entries;
    i :| 0 <= i < |files| && files[i] == f;
    j :| 0 <= j < |f.entries| && f.entries[j] == e;
  }

  lemma {:induction false} InputRunsSorted(level: nat, in0: seq<File>, in1: seq<File>)
    requires level > 0 ==> LevelSorted(in0)
    requires LevelSorted(in1)
    ensures forall i | 0 <= i < |InputRuns(level, in0, in1)| :: Sorted(InputRuns(level, in0, in1)[i])
  {
    hide LevelSorted, Less;
    ConcatenationSorted(in1);
    if level > 0 {
      ConcatenationSorted(in0);
    }
  }

  lemma {:induction false} SameEntrySameIndex(run: seq<Entry>, i: nat, j: nat)
    requires Sorted(run) && i < |run| && j < |run| && run[i] == run[j]
    ensures i == j
  {
    RanksInOrder(run, i, j);
    RanksInOrder(run, j, i);
  }

  /** Two level-0 inputs never hold the same entry. */
  lemma {:induction false} Level0FilesApart(files: seq<File>, in0: seq<File>, i: nat, j: nat, e: Entry)
    requires HigherNumberIsNewer(files) && DistinctNumbers(in0) && forall f | f in in0 :: f in files
    requires i < |in0| && j < |in0| && e in in0[i].entries && e in in0[j].entries
    ensures i == j
  {
    if i != j {
      DifferentNumbersApart(files, in0[i], in0[j], e);
    }
  }

  lemma {:induction false} DifferentNumbersApart(files: seq<File>, f: File, g: File, e: Entry)
    requires HigherNumberIsNewer(files) && f in files && g in files && f.number != g.number
    ensures !(e in f.entries && e in g.entries)
  {
    var newer, older := if f.number > g.number then f else g, if f.number > g.number then g else f;
    NewerIsApart(SetOf(newer.entries), SetOf(older.entries));
    assert e in newer.entries <==> e in SetOf(newer.entries);
    assert e in older.entries <==> e in SetOf(older.entries);
  }

  /** No entry stands in two places of the input runs. */
  lemma {:induction false} InputRunsApart(levels: Levels, level: nat, in0: seq<File>, in1: seq<File>,
                                          p: (nat, nat), q: (nat, nat), e: Entry)
    requires level + 1 < NUM_LEVELS && VersionOk(levels)
    requires (forall f | f in in0 :: f in levels[level]) && (forall f | f in in1 :: f in levels[level + 1])
    requires if level == 0 then DistinctNumbers(in0) else LevelSorted(in0)
    requires LevelSorted(in1)
    requires PlaceOf(InputRuns(level, in0, in1), e, p) && PlaceOf(InputRuns(level, in0, in1), e, q)
    ensures p == q
  {
    hide LevelSorted, EntriesOf, Sorted, Written, Newer, HigherNumberIsNewer, DistinctNumbers, Distinct;
    var runs := InputRuns(level, in0, in1);
    ConcatenationSorted(in1);
    if level > 0 {
      ConcatenationSorted(in0);
    }
    InputRunsSorted(level, in0, in1);
    var lower := |runs| - 1;
    if p.0 == q.0 {
      SameEntrySameIndex(runs[p.0], p.1, q.1);
    } else if in1 != [] && (p.0 == lower || q.0 == lower) {
      EntriesOfMonotone(in0, levels[level]);
      EntriesOfMonotone(in1, levels[level + 1]);
      var up := if p.0 == lower then q else p;
      if level == 0 {
        FileEntriesIn(in0, up.0, e);
      }
      assert e in EntriesOf(in0) && e in EntriesOf(in1);
      NewerIsApart(EntriesOf(levels[level]), EntriesOf(levels[level + 1]));
    } else {
      Level0FilesApart(levels[0], in0, p.0, q.0, e);
    }
  }

  /** The merged input of a compaction exists: its runs are sorted and share no key. */
  lemma {:induction false} InputMerge(levels: Levels, level: nat, in0: seq<File>, in1: seq<File>)
    returns (merged: seq<Entry>, origin: seq<(nat, nat)>)
    requires level + 1 < NUM_LEVELS && VersionOk(levels) && InputsOk(levels, level, in0, in1)
    ensures IsMergeOf(merged, origin, InputRuns(level, in0, in1))
    ensures IsInput(merged, in0 + in1)
  {
    hide LevelSorted, Sorted, EntriesOf, LeftBehindIsNewer, Overlapping, MinUser, MaxUser, IsMergeOf, InputRuns,
        VersionOk, DistinctNumbers;
    var runs := InputRuns(level, in0, in1);
    LowerInputsAreFiles(levels, level, in0, in1);
    LowerInputsSorted(levels, level, in0, in1);
    InputRunsSorted(level, in0, in1);
    forall p: (nat, nat), q: (nat, nat), x, y | PlaceOf(runs, x, p) && PlaceOf(runs, y, q) && x.key == y.key
      ensures p == q
    {
      InputRunsHold(level, in0, in1, x);
      InputRunsHold(level, in0, in1, y);
      SameKeySameEntry(levels, level, in0, in1, x, y);
      InputRunsApart(levels, level, in0, in1, p, q, x);
    }
    merged, origin := MergeExists(runs);
    forall e ensures e in SetOf(merged) <==> e in EntriesOf(in0 + in1) {
      InputRunsHold(level, in0, in1, e);
    }
    MergedIsSorted(merged, origin, runs);
  }

  lemma {:induction false} LowerInputsSorted(levels: Levels, level: nat, in0: seq<File>, in1: seq<File>)
    requires level + 1 < NUM_LEVELS && VersionOk(levels) && InputsOk(levels, level, in0, in1)
    ensures LevelSorted(in1)
  {
    hide LevelSorted, Overlapping;
    VersionSorted(levels, level + 1);
    var lo, hi := OverlappingIsRun(levels[level + 1], Some(MinUser(in0)), Some(MaxUser(in0)));
    SliceSorted(levels[level + 1], lo, hi);
  }

  lemma {:induction false} SameKeySameEntry(levels: Levels, level: nat, in0: seq<File>, in1: seq<File>, x: Entry,
      y: Entry)
    requires level + 1 < NUM_LEVELS && VersionOk(levels)
    requires (forall f | f in in0 :: f in levels[level]) && (forall f | f in in1 :: f in levels[level + 1])
    requires x in EntriesOf(in0 + in1) && y in EntriesOf(in0 + in1) && x.key == y.key
    ensures x == y
  {
    hide LevelSorted, EntriesOf, Newer;
    EntriesOfBoth(in0, in1);
    EntriesOfMonotone(in0, levels[level]);
    EntriesOfMonotone(in1, levels[level + 1]);
    assert x in EntriesOf(levels[level]) || x in EntriesOf(levels[level + 1]);
    assert y in EntriesOf(levels[level]) || y in EntriesOf(levels[level + 1]);
    assert x in AllEntries(levels, 0) && y in AllEntries(levels, 0);
  }

  // ---------- The store ----------

  /** A compaction of these inputs as it should be made: it writes every entry but those hidden from all
      snapshots by a newer one and tombstones that hide nothing, in tables that end where they should. */
  ghost predicate IsMade(st: State, level: nat, in0: seq<File>, in1: seq<File>, a: Action, o: Options) {
    && a.Compact? && in0 + in1 != [] && IsInput(a.input, in0 + in1)
    && MadeByLoop(a.outputs, a.input, Grandparents(st.levels, level, in0 + in1), o.maxFileSize, o.builtSize,
                  st.nextFile)
    && var s := SmallestSnapshot(st);
       forall e :: e in Written(a.outputs) <==>
         && e in EntriesOf(in0 + in1) && !HiddenIn(EntriesOf(in0 + in1), e, s)
         && !Obsolete(st.levels, level, e, s)
  }

  /** What a request leads to, when no memtable waits to be written. */
  ghost predicate Answers(st: State, level: nat, request: Request, a: Action, o: Options)
    requires level + 1 < NUM_LEVELS
  {
    match a
    case TrivialMove(from, f) =>
      && from == level && AreChosen(st.levels, level, request, o.maxFileSize, [f], [])
      && IsTrivialMove(st.levels, level, request, o.maxFileSize, [f], [])
    case Compact(from, in0, in1, _, _, _) =>
      && from == level && AreChosen(st.levels, level, request, o.maxFileSize, in0, in1)
      && !IsTrivialMove(st.levels, level, request, o.maxFileSize, in0, in1)
      && IsMade(st, level, in0, in1, a, o)
    case _ => false
  }

  class DBImpl {
    const options: Options
    var mem: seq<Entry>
    var imm: Option<seq<Entry>>
    var levels: Levels
    var lastSequence: SequenceNumber
    var snapshots: seq<SequenceNumber>
    var nextFile: nat

    ghost function Abs(): State
      reads this
    {
      State(mem, imm, levels, lastSequence, snapshots, nextFile)
    }

    ghost predicate Valid()
      reads this
    {
      Inv(Abs())
    }

    constructor (options: Options)
      ensures Valid() && Abs() == INITIAL && this.options == options
    {
      this.options := options;
      mem, imm, levels, lastSequence, snapshots, nextFile := [], None, NO_FILES, 0, [], 2;
      new;
      InitialInv();
    }

    /** Read a key, at a snapshot or now: memtable, immutable memtable, then tables. */
    method Get(u: UserKey, snapshot: Option<SequenceNumber>) returns (r: Option<Bytes>)
      requires Valid()
      ensures r == ReadAt(Abs(), u, if snapshot.Some? then snapshot.value else lastSequence)
    {
      hide VersionOk, FilesOk, AllEntries, Sorted, PointGet, Read;
      var s := if snapshot.Some? then snapshot.value else lastSequence;
      var e := PointGet(mem, u, s);
      PointGetIsNewest(mem, u, s);
      if e.None? && imm.Some? {
        e := PointGet(imm.value, u, s);
        PointGetIsNewest(imm.value, u, s);
      }
      if e.None? {
        e := Versions.Get(levels, u, s);
      }
      r := if e.Some? then ValueOf(e.value) else None;
      FirstHitAnswers(Abs(), u, s, e);
    }

    /** Apply a batch, unless sequence numbers have run out. */
    method Write(ops: seq<Op>) returns (ok: bool)
      requires Valid()
      modifies this
      ensures Valid()
      ensures ok <==> Enabled(old(Abs()), Action.Write(ops), options)
      ensures Abs() == if ok then After(old(Abs()), Action.Write(ops), options) else old(Abs())
    {
      hide Inv, InsertEntry;
      ok := lastSequence + |ops| < MAX_SEQUENCE;
      if ok {
        StepKeepsInv(Abs(), Action.Write(ops), options);
        var i := 0;
        var m := mem;
        while i < |ops|
          invariant i <= |ops| && m == InsertBatch(mem, ops[..i], lastSequence + 1)
        {
          assert ops[..i + 1][..i] == ops[..i];
          m := InsertEntry(m, EntryOf(ops[i], lastSequence + 1 + i));
          i := i + 1;
        }
        assert ops[..|ops|] == ops;
        mem, lastSequence := m, lastSequence + |ops|;
      }
    }

    /** Make room for writes: the memtable becomes immutable, unless one is waiting already. */
    method SwitchMemTable() returns (ok: bool)
      requires Valid()
      modifies this
      ensures Valid()
      ensures ok <==> Enabled(old(Abs()), Action.SwitchMemTable, options)
      ensures Abs() == if ok then After(old(Abs()), Action.SwitchMemTable, options) else old(Abs())
    {
      ok := imm.None?;
      if ok {
        StepKeepsInv(Abs(), Action.SwitchMemTable, options);
        imm, mem := Some(mem), [];
      }
    }

    /** Write the immutable memtable to a table and install it at the level picked for it. */
    method CompactMemTable() returns (ghost level: nat, ghost number: nat)
      requires Valid() && imm.Some?
      modifies this
      ensures Valid()
      ensures Enabled(old(Abs()), Action.CompactMemTable(level, number), options)
      ensures Abs() == After(old(Abs()), Action.CompactMemTable(level, number), options)
    {
      hide Inv, LevelSorted, IsFlushLevel, Edited;
      level := 0;
      InvLevels(Abs());
      var n := nextFile;
      number := n;
      if imm.value == [] {
        StepKeepsInv(Abs(), Action.CompactMemTable(level, number), options);
      } else {
        var f: File := Table(n, options.builtSize(imm.value), imm.value);
        EntryWithinFile(f, f.entries[0]);
        var l := PickLevelForMemTableOutput(levels, Smallest(f).user, Largest(f).user, options.maxFileSize);
        level := l;
        StepKeepsInv(Abs(), Action.CompactMemTable(level, number), options);
        levels := ApplyEdit(levels, FlushEdit(l, f));
      }
      nextFile := n + 1;
      imm := None;
    }

    /** Compact a level in the background: nothing to do, a trivial move, or a merge. A memtable
        waiting to be written goes first. */
    method BackgroundCompaction(level: nat, request: Request) returns (ghost a: Option<Action>)
      requires Valid() && level + 1 < NUM_LEVELS
      requires request.Automatic? ==> levels[level] != []
      requires request.Automatic? && request.trigger.BySeek? ==> request.trigger.file < |levels[level]|
      modifies this
      ensures Valid()
      ensures a.Some? ==> Enabled(old(Abs()), a.value, options) && Abs() == After(old(Abs()), a.value, options)
      ensures a.None? ==> Abs() == old(Abs())
      ensures old(imm).Some? ==> a.Some? && a.value.CompactMemTable?
      ensures old(imm).None? && request.Automatic? ==> a.Some?
      ensures old(imm).None? && a.Some? ==> Answers(old(Abs()), level, request, a.value, options)
      ensures request.Manual? && a.None? ==>
                forall f | f in old(levels)[level] :: !Overlaps(f, request.begin, request.end)
    {
      hide Inv, InputsOk, Enabled, After, AreChosen, IsMade, TotalFileSize, Grandparents;
      a := None;
      if imm.Some? {
        ghost var l, n := CompactMemTable();
        a := Some(Action.CompactMemTable(l, n));
        return;
      }
      var inputs0, inputs1, grandparents := ChooseInputs(level, request);
      if inputs0 == [] {
        return;
      }
      UpperOnly(inputs0, inputs1);
      if request.Automatic? && |inputs0| == 1 && inputs1 == []
          && TotalFileSize(grandparents) <= 10 * options.maxFileSize {
        a := MoveFile(level, inputs0[0]);
      } else {
        a := Merge(level, inputs0, inputs1, grandparents);
      }
    }

    /** The inputs that a request asks for, or none when there is nothing to do. */
    method ChooseInputs(level: nat, request: Request)
        returns (inputs0: seq<File>, inputs1: seq<File>, grandparents: seq<File>)
      requires Valid() && level + 1 < NUM_LEVELS
      requires request.Automatic? ==> levels[level] != []
      requires request.Automatic? && request.trigger.BySeek? ==> request.trigger.file < |levels[level]|
      ensures inputs0 != [] ==>
                && InputsOk(levels, level, inputs0, inputs1)
                && AreChosen(levels, level, request, options.maxFileSize, inputs0, inputs1)
                && grandparents == Grandparents(levels, level, inputs0 + inputs1)
      ensures inputs0 == [] ==>
                request.Manual? && forall f | f in levels[level] :: !Overlaps(f, request.begin, request.end)
    {
      hide Inv, VersionOk, InputsOk, AreInputs, IsPickSeed, IsRangeSeed, Seed;
      InvLevels(Abs());
      var seed;
      match request {
        case Automatic(trigger) =>
          seed := PickCompaction(levels, level, trigger);
        case Manual(begin, end) =>
          seed := CompactRange(levels, level, begin, end, options.maxFileSize);
          if seed == [] {
            return [], [], [];
          }
      }
      inputs0, inputs1, grandparents := SetupOtherInputs(levels, level, seed, options.maxFileSize);
      InputsNotEmpty(levels, level, inputs0, inputs1);
      assert IsSeedFor(level, levels[level], request, options.maxFileSize, seed);
    }

    method MoveFile(level: nat, f: File) returns (ghost a: Option<Action>)
      requires Valid() && level + 1 < NUM_LEVELS && InputsOk(levels, level, [f], [])
      modifies this
      ensures Valid() && a == Some(Action.TrivialMove(level, f))
      ensures Enabled(old(Abs()), a.value, options) && Abs() == After(old(Abs()), a.value, options)
    {
      hide Inv, InputsOk, Edited;
      a := Some(Action.TrivialMove(level, f));
      StepKeepsInv(Abs(), a.value, options);
      levels := ApplyEdit(levels, MoveEdit(level, f));
    }

    method Merge(level: nat, inputs0: seq<File>, inputs1: seq<File>, grandparents: seq<File>)
        returns (ghost a: Option<Action>)
      requires Valid() && level + 1 < NUM_LEVELS && InputsOk(levels, level, inputs0, inputs1)
      requires inputs0 + inputs1 != [] && grandparents == Grandparents(levels, level, inputs0 + inputs1)
      modifies this
      ensures Valid() && a.Some? && a.value.Compact?
      ensures a.value.level == level && a.value.inputs0 == inputs0 && a.value.inputs1 == inputs1
      ensures IsMade(old(Abs()), level, inputs0, inputs1, a.value, options)
      ensures Enabled(old(Abs()), a.value, options) && Abs() == After(old(Abs()), a.value, options)
    {
      hide Inv, InputsOk, Edited, Sorted, LevelSorted, IsMergeOf, IsInput, Survivors, Written, VersionOk, MadeByLoop,
          CompactionState.Valid, Compaction.Valid, MergingIterator.Valid, FreshNumbers, NextNumber;
      InvLevels(Abs());
      var smallest := if snapshots == [] then lastSequence else snapshots[0];
      SmallestIsSmall(Abs());
      ghost var merged, origin := InputMerge(levels, level, inputs0, inputs1);
      var input := new MergingIterator(InputRuns(level, inputs0, inputs1), merged, origin);
      var c := new Compaction(levels, level, grandparents, options.maxFileSize);
      var out := new CompactionState(nextFile, options.builtSize);
      DoCompactionWork(c, input, out, smallest);
      var outputs := out.outputs;
      LoopNumbers(outputs, merged, grandparents, options, nextFile);
      a := Some(Action.Compact(level, inputs0, inputs1, smallest, merged, outputs));
      assert Enabled(Abs(), a.value, options);
      KeepsWhatIsNeeded(Abs(), a.value, options);
      StepKeepsInv(Abs(), a.value, options);
      levels := ApplyEdit(levels, CompactionEdit(level, inputs0, inputs1, outputs));
      nextFile := nextFile + |outputs|;
    }

    method GetSnapshot() returns (s: SequenceNumber)
      requires Valid()
      modifies this
      ensures Valid() && s == old(lastSequence)
      ensures Abs() == After(old(Abs()), Action.GetSnapshot, options)
    {
      StepKeepsInv(Abs(), Action.GetSnapshot, options);
      s := lastSequence;
      snapshots := snapshots + [s];
    }

    method ReleaseSnapshot(at: nat)
      requires Valid() && at < |snapshots|
      modifies this
      ensures Valid()
      ensures Abs() == After(old(Abs()), Action.ReleaseSnapshot(at), options)
    {
      StepKeepsInv(Abs(), Action.ReleaseSnapshot(at), options);
      snapshots := snapshots[..at] + snapshots[at + 1..];
    }
  }

  lemma {:induction false} SmallestIsSmall(st: State)
    requires Inv(st)
    ensures SmallestSnapshot(st) < MAX_SEQUENCE
  {
  }

  /** A compaction that goes by the smallest snapshot of the store keeps what its readers need. */
  lemma {:induction false} KeepsWhatIsNeeded(st: State, a: Action, o: Options)
    requires Inv(st) && Enabled(st, a, o) && a.Compact? && a.oldest == SmallestSnapshot(st)
    ensures var all, s := EntriesOf(a.inputs0 + a.inputs1), SmallestSnapshot(st);
            forall e :: e in Written(a.outputs)
                <==> e in all && !HiddenIn(all, e, s) && !Obsolete(st.levels, a.level, e, s)
  {
    hide HiddenIn, Obsolete, Survivors, Written, AllEntries, LevelSorted, Sorted, EntriesOf, Distinct, InputsOk,
        FreshNumbers;
    InputsDistinct(st, a, o);
    forall e
      ensures e in Written(a.outputs) <==>
                e in a.input && !HiddenIn(SetOf(a.input), e, a.oldest) && !Obsolete(st.levels, a.level, e, a.oldest)
    {
      SurvivorsHold(st.levels, a.level, a.input, a.oldest, e);
    }
  }

  lemma {:induction false} InputsDistinct(st: State, a: Action, o: Options)
    requires Inv(st) && Enabled(st, a, o) && a.Compact?
    ensures Sorted(a.input) && Distinct(SetOf(a.input))
  {
    hide LevelSorted, Sorted, Survivors, Written, FreshNumbers, EntriesOf, LeftBehindIsNewer, Overlapping,
        DistinctNumbers, FilesOk, Distinct, AgesOk, Newer;
    LowerInputsAreFiles(st.levels, a.level, a.inputs0, a.inputs1);
    EntriesOfBoth(a.inputs0, a.inputs1);
    EntriesOfMonotone(a.inputs0, st.levels[a.level]);
    EntriesOfMonotone(a.inputs1, st.levels[a.level + 1]);
    DistinctSubset(AllEntries(st.levels, 0), SetOf(a.input));
  }

  lemma {:induction false} LoopNumbers(outputs: seq<File>, input: seq<Entry>, grandparents: seq<File>, o: Options,
      first: nat)
    requires MadeByLoop(outputs, input, grandparents, o.maxFileSize, o.builtSize, first)
    ensures FreshNumbers(outputs, first) && NextNumber(outputs, first) == first + |outputs|
  {
  }

  lemma {:induction false} InputsNotEmpty(levels: Levels, level: nat, in0: seq<File>, in1: seq<File>)
    requires level + 1 < NUM_LEVELS && InputsOk(levels, level, in0, in1)
    ensures in0 != []
  {
  }

  lemma {:induction false} UpperOnly(in0: seq<File>, in1: seq<File>)
    ensures in1 == [] ==> in0 + in1 == in0
    ensures |in0| == 1 ==> in0 == [in0[0]]
  {
  }

  lemma {:induction false} InvLevels(st: State)
    requires Inv(st)
    ensures st.imm.Some? ==> Sorted(st.imm.value)
    ensures VersionOk(st.levels) && forall l | 1 <= l < NUM_LEVELS :: LevelSorted(st.levels[l])
  {
  }

  lemma {:induction false} FirstHitAnswers(st: State, u: UserKey, s: SequenceNumber, e: Option<Entry>)
    requires Inv(st)
    requires Unseen(SetOf(st.mem), u, s) || (e.Some? && Newest(SetOf(st.mem), u, s, e.value))
    requires Unseen(SetOf(st.mem), u, s) ==>
               Unseen(ImmSet(st), u, s) || (e.Some? && Newest(ImmSet(st), u, s, e.value))
    requires Unseen(SetOf(st.mem), u, s) && Unseen(ImmSet(st), u, s) ==>
               (e.None? <==> Unseen(TableSet(st), u, s)) && (e.Some? ==> Newest(TableSet(st), u, s, e.value))
    ensures ReadAt(st, u, s) == if e.Some? then ValueOf(e.value) else None
  {
    hide VersionOk, FilesOk, AllEntries, Sorted, Read, Distinct;
    if e.None? {
      ReadUnseen(All(st), u, s);
    } else {
      assert Newest(All(st), u, s, e.value);
      ReadNewest(All(st), u, s, e.value);
    }
  }
}
