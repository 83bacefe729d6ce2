/** A run in which a compaction brings a deleted key back. While a snapshot is held, a compaction
    cuts level 2 between a tombstone and the value it hides; later only the file with the tombstone
    is compacted. */
module Resurrection {
  import opened Format
  import opened Versions
  import opened VersionBuilder
  import opened CompactionInputs
  import opened OutputCuts
  import opened CompactionWork
  import opened CompactionReads
  import opened Database
  import opened DatabaseReads
  import opened DbImpl

  const VALUE: Bytes := [1]

  // ---------- The run ----------

  const PUT7 := Entry(InternalKey(7.0, 1, Put), VALUE)
  const DELETE7 := Entry(InternalKey(7.0, 2, Deletion), [])
  const PUT2 := Entry(InternalKey(2.0, 3, Put), [])
  const PUT8 := Entry(InternalKey(8.0, 4, Put), [])
  const AGAIN2 := Entry(InternalKey(2.0, 5, Put), [])

  const SEVENS: File := Table(2, 2, [DELETE7, PUT7])
  const AROUND: File := Table(3, 2, [PUT2, PUT8])
  const LOWER: File := Table(4, 2, [PUT2, DELETE7])
  const LEFT_OUT: File := Table(5, 2, [PUT7, PUT8])
  const UPPER: File := Table(6, 1, [AGAIN2])
  const RESULT: File := Table(7, 1, [AGAIN2])

  /** A table is as big as it has entries, and full with two. */
  function Count(es: seq<Entry>): nat {
    |es|
  }

  const OPTIONS := Options(2, Count)

  function Two(level1: seq<File>, level2: seq<File>): Levels {
    [[], level1, level2, [], [], [], []]
  }

  const STATES: seq<State> := [
    State([], None, NO_FILES, 0, [], 2),
    State([PUT7], None, NO_FILES, 1, [], 2),
    State([PUT7], None, NO_FILES, 1, [1], 2),
    State([DELETE7, PUT7], None, NO_FILES, 2, [1], 2),
    State([], Some([DELETE7, PUT7]), NO_FILES, 2, [1], 2),
    State([], None, Two([], [SEVENS]), 2, [1], 3),
    State([PUT2, PUT8], None, Two([], [SEVENS]), 4, [1], 3),
    State([], Some([PUT2, PUT8]), Two([], [SEVENS]), 4, [1], 3),
    State([], None, Two([AROUND], [SEVENS]), 4, [1], 4),
    State([], None, Two([], [LOWER, LEFT_OUT]), 4, [1], 6),
    State([], None, Two([], [LOWER, LEFT_OUT]), 4, [], 6),
    State([AGAIN2], None, Two([], [LOWER, LEFT_OUT]), 5, [], 6),
    State([], Some([AGAIN2]), Two([], [LOWER, LEFT_OUT]), 5, [], 6),
    State([], None, Two([UPPER], [LOWER, LEFT_OUT]), 5, [], 7),
    State([], None, Two([], [RESULT, LEFT_OUT]), 5, [], 8)
  ]

  const ACTIONS: seq<Action> := [
    Write([PutOp(7.0, VALUE)]),
    GetSnapshot,
    Write([DeleteOp(7.0)]),
    SwitchMemTable,
    CompactMemTable(2, 2),
    Write([PutOp(2.0, []), PutOp(8.0, [])]),
    SwitchMemTable,
    CompactMemTable(1, 3),
    Compact(1, [AROUND], [SEVENS], 1, [PUT2, DELETE7, PUT7, PUT8], [LOWER, LEFT_OUT]),
    ReleaseSnapshot(0),
    Write([PutOp(2.0, [])]),
    SwitchMemTable,
    CompactMemTable(1, 6),
    Compact(1, [UPPER], [LOWER], 5, [AGAIN2, PUT2, DELETE7], [RESULT])
  ]

  /** Is this step possible, and does it lead to the next state? */
  ghost predicate Steps(a: State, act: Action, b: State) {
    Enabled(a, act, OPTIONS) && After(a, act, OPTIONS) == b
  }

  // ---------- Writes ----------

  lemma {:induction false} WriteOne(mem: seq<Entry>, op: Op, first: nat)
    requires first <= MAX_SEQUENCE
    ensures InsertBatch(mem, [op], first) == InsertEntry(mem, EntryOf(op, first))
  {
    assert [op][..0] == [];
  }

  lemma {:induction false} WriteTwo(mem: seq<Entry>, a: Op, b: Op, first: nat)
    requires first + 1 <= MAX_SEQUENCE
    ensures InsertBatch(mem, [a, b], first) == InsertEntry(InsertEntry(mem, EntryOf(a, first)), EntryOf(b, first + 1))
  {
    assert [a, b][..1] == [a];
    WriteOne(mem, a, first);
  }

  lemma {:induction false} Writes()
    ensures Steps(STATES[0], ACTIONS[0], STATES[1]) && Steps(STATES[2], ACTIONS[2], STATES[3])
    ensures Steps(STATES[5], ACTIONS[5], STATES[6]) && Steps(STATES[10], ACTIONS[10], STATES[11])
  {
    WriteOne([], PutOp(7.0, VALUE), 1);
    WriteOne([PUT7], DeleteOp(7.0), 2);
    WriteTwo([], PutOp(2.0, []), PutOp(8.0, []), 3);
    WriteOne([], PutOp(2.0, []), 5);
    assert SeekIndex([PUT7], DELETE7.key) == 0;
    assert SeekIndex([PUT2], PUT8.key) == 1 by {
      assert [PUT2][1..] == [];
    }
    assert [PUT7][..0] == [] && [PUT7][0..] == [PUT7];
    assert [PUT2][..1] == [PUT2] && [PUT2][1..] == [];
  }

  lemma {:induction false} SwitchesAndSnapshots()
    ensures Steps(STATES[1], ACTIONS[1], STATES[2]) && Steps(STATES[9], ACTIONS[9], STATES[10])
    ensures Steps(STATES[3], ACTIONS[3], STATES[4]) && Steps(STATES[6], ACTIONS[6], STATES[7])
    ensures Steps(STATES[11], ACTIONS[11], STATES[12])
  {
    assert [] + [1] == [1] && [1][..0] + [1][1..] == [];
  }

  // ---------- Versions ----------

  lemma {:induction false} LevelOfTwo(a: seq<File>, b: seq<File>, l: nat)
    requires l < NUM_LEVELS
    ensures Two(a, b)[l] == if l == 1 then a else if l == 2 then b else []
  {
  }

  lemma {:induction false} FewInOrder(f: File, g: File)
    ensures InOrder([]) && InOrder([f]) && (BySmallestKey(f, g) ==> InOrder([f, g]))
  {
  }

  /** An edit of levels 1 and 2, by its effect on the set of files. */
  lemma {:induction false} EditTwo(a: seq<File>, b: seq<File>, e: Edit, a': seq<File>, b': seq<File>)
    requires InOrder(a) && InOrder(b) && InOrder(a') && InOrder(b') && AddsFresh(a, e, 1) && AddsFresh(b, e, 2)
    requires (forall d | d in e.deleted :: d.0 == 1 || d.0 == 2) && (forall x | x in e.added :: x.0 == 1 || x.0 == 2)
    requires forall f :: f in a' <==> (f in a && (1, f.number) !in e.deleted) || (1, f) in e.added
    requires forall f :: f in b' <==> (f in b && (2, f.number) !in e.deleted) || (2, f) in e.added
    ensures Edited(Two(a, b), e) == Two(a', b')
  {
    hide Edited, InOrder, AddsFresh;
    forall l | 0 <= l < NUM_LEVELS ensures Edited(Two(a, b), e)[l] == Two(a', b')[l] {
      LevelOfTwo(a, b, l);
      LevelOfTwo(a', b', l);
      if l == 1 || l == 2 {
        EditHolds(Two(a, b), e, l);
        InOrderIsCanonical(Edited(Two(a, b), e)[l], Two(a', b')[l]);
      } else {
        NoneInOrder();
        UntouchedLevel(Two(a, b), e, l);
      }
    }
  }

  lemma {:induction false} NoneInOrder()
    ensures InOrder([])
  {
  }

  lemma {:induction false} FlushEdits()
    ensures NO_FILES == Two([], [])
    ensures Edited(Two([], []), FlushEdit(2, SEVENS)) == Two([], [SEVENS])
    ensures Edited(Two([], [SEVENS]), FlushEdit(1, AROUND)) == Two([AROUND], [SEVENS])
    ensures Edited(Two([], [LOWER, LEFT_OUT]), FlushEdit(1, UPPER)) == Two([UPPER], [LOWER, LEFT_OUT])
  {
    FewInOrder(SEVENS, SEVENS);
    FewInOrder(AROUND, AROUND);
    FewInOrder(UPPER, UPPER);
    FewInOrder(LOWER, LEFT_OUT);
    EditTwo([], [], FlushEdit(2, SEVENS), [], [SEVENS]);
    EditTwo([], [SEVENS], FlushEdit(1, AROUND), [AROUND], [SEVENS]);
    EditTwo([], [LOWER, LEFT_OUT], FlushEdit(1, UPPER), [UPPER], [LOWER, LEFT_OUT]);
  }

  lemma {:induction false} FirstCompactionEdit()
    ensures Edited(Two([AROUND], [SEVENS]), CompactionEdit(1, [AROUND], [SEVENS], [LOWER, LEFT_OUT]))
        == Two([], [LOWER, LEFT_OUT])
  {
    hide Edited;
    FewInOrder(AROUND, AROUND);
    FewInOrder(SEVENS, SEVENS);
    FewInOrder(LOWER, LEFT_OUT);
    var e := CompactionEdit(1, [AROUND], [SEVENS], [LOWER, LEFT_OUT]);
    assert e.deleted == {(1, 3), (2, 2)} && e.added == [(2, LOWER), (2, LEFT_OUT)];
    EditTwo([AROUND], [SEVENS], e, [], [LOWER, LEFT_OUT]);
  }

  lemma {:induction false} CompactionEdits()
    ensures Edited(Two([AROUND], [SEVENS]), CompactionEdit(1, [AROUND], [SEVENS], [LOWER, LEFT_OUT]))
        == Two([], [LOWER, LEFT_OUT])
    ensures Edited(Two([UPPER], [LOWER, LEFT_OUT]), CompactionEdit(1, [UPPER], [LOWER], [RESULT]))
        == Two([], [RESULT, LEFT_OUT])
  {
    FirstCompactionEdit();
    hide Edited;
    FewInOrder(UPPER, UPPER);
    FewInOrder(LOWER, LEFT_OUT);
    FewInOrder(RESULT, LEFT_OUT);
    var e' := CompactionEdit(1, [UPPER], [LOWER], [RESULT]);
    assert e'.deleted == {(1, 6), (2, 4)} && e'.added == [(2, RESULT)];
    EditTwo([UPPER], [LOWER, LEFT_OUT], e', [], [RESULT, LEFT_OUT]);
  }

  // ---------- Flushes ----------

  lemma {:induction false} OverlappingOne(f: File, lo: UserKey, hi: UserKey)
    ensures Overlapping([], Some(lo), Some(hi)) == []
    ensures Overlapping([f], Some(lo), Some(hi)) == if Overlaps(f, Some(lo), Some(hi)) then [f] else []
  {
    assert [f][..0] == [];
  }

  lemma {:induction false} OverlappingTwo(f: File, g: File, lo: UserKey, hi: UserKey)
    ensures Overlapping([f, g], Some(lo), Some(hi)) ==
              (if Overlaps(f, Some(lo), Some(hi)) then [f] else []) + (if Overlaps(g, Some(lo), Some(hi)) then [g]
                  else [])
  {
    assert [f, g][..1] == [f];
    OverlappingOne(f, lo, hi);
  }

  /** Over an empty level 1, a table that overlaps level 2 goes to level 1. */
  lemma {:induction false} FlushToLevelOne(b: seq<File>, f: File, lo: UserKey, hi: UserKey)
    requires f in b && Overlaps(f, Some(lo), Some(hi)) && TotalFileSize(Overlapping(b, Some(lo), Some(hi))) <= 20
    ensures IsFlushLevel(Two([], b), lo, hi, 2, 1)
  {
    hide Overlapping;
    assert MayGoDown(Two([], b), lo, hi, 2, 0);
    assert !NoOverlap(Two([], b)[2], lo, hi);
  }

  lemma {:induction false} FirstFlush()
    ensures Steps(STATES[4], ACTIONS[4], STATES[5])
  {
    FlushEdits();
    hide Edited;
  }

  lemma {:induction false} SecondFlush()
    ensures Steps(STATES[7], ACTIONS[7], STATES[8])
  {
    FlushEdits();
    hide Edited, IsFlushLevel;
    OverlappingOne(SEVENS, 2.0, 8.0);
    FlushToLevelOne([SEVENS], SEVENS, 2.0, 8.0);
  }

  lemma {:induction false} LastFlush()
    ensures Steps(STATES[12], ACTIONS[12], STATES[13])
  {
    FlushEdits();
    hide Edited, IsFlushLevel;
    OverlappingTwo(LOWER, LEFT_OUT, 2.0, 2.0);
    FlushToLevelOne([LOWER, LEFT_OUT], LOWER, 2.0, 2.0);
  }

  // ---------- Compactions ----------

  lemma {:induction false} WrittenFiles(f: File, g: File)
    ensures Written([f]) == f.entries && Written([f, g]) == f.entries + g.entries
  {
    assert [f][..0] == [] && [f, g][..1] == [f];
    assert [] + f.entries == f.entries;
  }

  lemma {:induction false} OneInput(levels: Levels, f: File)
    requires levels[1] == [f]
    ensures InputsOk(levels, 1, [f], Overlapping(levels[2], Some(MinUser([f])), Some(MaxUser([f]))))
    ensures MinUser([f]) == Smallest(f).user && MaxUser([f]) == Largest(f).user
  {
    hide Overlapping, Newer;
    assert f in [f];
  }

  lemma {:induction false} EntriesOfTwo(f: File, g: File)
    ensures EntriesOf([f] + [g]) == SetOf(f.entries) + SetOf(g.entries)
  {
    assert f in [f] + [g] && g in [f] + [g];
  }

  lemma {:induction false} Inputs()
    ensures IsInput([PUT2, DELETE7, PUT7, PUT8], [AROUND] + [SEVENS])
    ensures IsInput([AGAIN2, PUT2, DELETE7], [UPPER] + [LOWER])
  {
    EntriesOfTwo(AROUND, SEVENS);
    EntriesOfTwo(UPPER, LOWER);
    hide EntriesOf;
    assert SetOf([PUT2, DELETE7, PUT7, PUT8]) == SetOf([PUT2, PUT8]) + SetOf([DELETE7, PUT7]);
    assert SetOf([AGAIN2, PUT2, DELETE7]) == SetOf([AGAIN2]) + SetOf([PUT2, DELETE7]);
  }

  lemma {:induction false} NothingBelow(a: seq<File>, b: seq<File>, u: UserKey)
    ensures BaseLevel(Two(a, b), 1, u)
  {
    forall l | 3 <= l < NUM_LEVELS ensures Two(a, b)[l] == [] {
      LevelOfTwo(a, b, l);
    }
  }

  /** While snapshot 1 is held everything survives. */
  lemma {:induction false} FirstSurvivors()
    ensures Survivors(Two([AROUND], [SEVENS]), 1, [PUT2, DELETE7, PUT7, PUT8], 4, 1) == [PUT2, DELETE7, PUT7, PUT8]
  {
    hide BaseLevel;
    var levels, input := Two([AROUND], [SEVENS]), [PUT2, DELETE7, PUT7, PUT8];
    assert Survivors(levels, 1, input, 0, 1) == [];
    assert Survivors(levels, 1, input, 1, 1) == [PUT2];
    assert Survivors(levels, 1, input, 2, 1) == [PUT2, DELETE7];
    assert Survivors(levels, 1, input, 3, 1) == [PUT2, DELETE7, PUT7];
  }

  /** With no snapshot the older version of key 2 is hidden, and the tombstone has nothing to hide. */
  lemma {:induction false} LastSurvivors()
    ensures Survivors(Two([UPPER], [LOWER, LEFT_OUT]), 1, [AGAIN2, PUT2, DELETE7], 3, 5) == [AGAIN2]
  {
    NothingBelow([UPPER], [LOWER, LEFT_OUT], 7.0);
    hide BaseLevel;
    var levels, input := Two([UPPER], [LOWER, LEFT_OUT]), [AGAIN2, PUT2, DELETE7];
    assert Survivors(levels, 1, input, 0, 5) == [];
    assert Survivors(levels, 1, input, 1, 5) == [AGAIN2];
    assert Survivors(levels, 1, input, 2, 5) == [AGAIN2];
  }

  lemma {:induction false} OneCompaction(st: State, levels: Levels, in0: seq<File>, in1: seq<File>,
      oldest: SequenceNumber, input: seq<Entry>, outs: seq<File>)
    requires InputsOk(st.levels, 1, in0, in1) && IsInput(input, in0 + in1) && oldest <= SmallestSnapshot(st)
    requires Written(outs) == Survivors(st.levels, 1, input, |input|, oldest) && FreshNumbers(outs, st.nextFile)
    requires Edited(st.levels, CompactionEdit(1, in0, in1, outs)) == levels
    ensures Steps(st, Compact(1, in0, in1, oldest, input, outs),
        st.(levels := levels, nextFile := NextNumber(outs, st.nextFile)))
  {
    hide InputsOk, Survivors, Written, Edited, IsInput, FreshNumbers;
  }

  lemma {:induction false} FirstCompaction()
    ensures Steps(STATES[8], ACTIONS[8], STATES[9])
  {
    hide InputsOk, Survivors, Written, Edited, IsInput, Overlapping, Enabled, After, MinUser, MaxUser;
    OneInput(Two([AROUND], [SEVENS]), AROUND);
    OverlappingOne(SEVENS, 2.0, 8.0);
    FirstSurvivors();
    WrittenFiles(LOWER, LEFT_OUT);
    FirstCompactionEdit();
    Inputs();
    assert [PUT2, DELETE7] + [PUT7, PUT8] == [PUT2, DELETE7, PUT7, PUT8];
    OneCompaction(STATES[8], Two([], [LOWER, LEFT_OUT]), [AROUND], [SEVENS], 1, [PUT2, DELETE7, PUT7, PUT8],
        [LOWER, LEFT_OUT]);
  }

  lemma {:induction false} LastCompaction()
    ensures Steps(STATES[13], ACTIONS[13], STATES[14])
  {
    hide InputsOk, Survivors, Written, Edited, IsInput, Overlapping, Enabled, After, MinUser, MaxUser;
    OneInput(Two([UPPER], [LOWER, LEFT_OUT]), UPPER);
    OverlappingTwo(LOWER, LEFT_OUT, 2.0, 2.0);
    LastSurvivors();
    WrittenFiles(RESULT, RESULT);
    CompactionEdits();
    Inputs();
    assert [LOWER] + [] == [LOWER];
    OneCompaction(STATES[13], Two([], [RESULT, LEFT_OUT]), [UPPER], [LOWER], 5, [AGAIN2, PUT2, DELETE7], [RESULT]);
  }

  // ---------- The whole run ----------

  lemma {:induction false} RunIsLegal()
    ensures IsRun(STATES, ACTIONS, OPTIONS)
  {
    Writes();
    SwitchesAndSnapshots();
    FirstFlush();
    SecondFlush();
    LastFlush();
    FirstCompaction();
    LastCompaction();
    hide Enabled, After;
    forall i | 0 <= i < |ACTIONS| ensures Steps(STATES[i], ACTIONS[i], STATES[i + 1]) {
    }
  }

  // ---------- The compactions are those the store makes ----------

  lemma {:induction false} NoStops(input: seq<Entry>, limit: nat, a: InternalKey, b: InternalKey)
    ensures !StopsBetween(input, [], limit, a, b)
  {
    forall m: nat | m < |input| ensures !StopsAt(input, [], limit, m) {
      assert BytesPassed([], input[CountedFrom(input, [], limit, m)].key, input[m].key) == 0;
    }
  }

  /** Tables of two entries, the last of one or two, are cut right when nothing lies two levels down. */
  lemma {:induction false} CutByCount(input: seq<Entry>, tables: seq<seq<Entry>>)
    requires forall k | 0 <= k < |tables| :: 1 <= |tables[k]| <= 2 && (k < |tables| - 1 ==> |tables[k]| == 2)
    ensures Cutting(input, [], 2, Count).CutRight(tables)
  {
    hide StopsBetween;
    var c := Cutting(input, [], 2, Count);
    forall a, b ensures !c.Between(a, b) {
      NoStops(input, 20, a, b);
    }
    forall k | 0 <= k < |tables| ensures NoneEarlier(tables[k], c.Ending()) {
    }
  }

  /** A size compaction of a level with one file takes it with what it overlaps. */
  lemma {:induction false} OnlyFileChosen(levels: Levels, f: File)
    requires levels[1] == [f]
    ensures AreChosen(levels, 1, Automatic(BySize(None)), 2, [f], OverlappedBy(levels[2], [f]))
  {
    hide OverlappedBy, MinUser, MaxUser, Less, TotalFileSize, Grandparents;
    var in1 := OverlappedBy(levels[2], [f]);
    NoBoundary(f);
    assert [f] + [] == [f];
    assert IsPick([f], BySize(None), 0) && IsPickSeed(1, [f], BySize(None), [f]);
    forall more0, more1 | IsExpansion(levels, 1, [f], in1, more0, more1) ensures !Pays([f], in1, more0, more1, 2) {
      var begin, end := MinUser([f] + in1), MaxUser([f] + in1);
      var r :| IsSelection(1, levels[1], Some(begin), Some(end), r) && r != [] && more0 == Completed(levels[1], r);
      OverlappingOne(f, begin, end);
    }
    assert IsSeedFor(1, levels[1], Automatic(BySize(None)), 2, [f]);
    assert AreInputs(levels, 1, [f], 2, [f], in1);
  }

  lemma {:induction false} NoBoundary(f: File)
    ensures MaxLargest([f]) == Largest(f) && Completed([f], [f]) == [f]
  {
    EntryWithinFile(f, f.entries[0]);
    assert [f][..0] == [];
    assert NextBoundary([], Largest(f)) == None;
    assert [f] + [] == [f];
  }

  lemma {:induction false} NothingTwoDown(a: seq<File>, b: seq<File>, f: File, g: File)
    ensures Grandparents(Two(a, b), 1, [f] + [g]) == []
  {
    hide MinUser, MaxUser;
    OverlappingOne(f, MinUser([f] + [g]), MaxUser([f] + [g]));
  }

  lemma {:induction false} AsAnswered(st: State, f: File, g: File, a: Action, tables: seq<seq<Entry>>)
    requires Inv(st) && Enabled(st, a, OPTIONS) && st.levels == Two([f], st.levels[2])
    requires a.Compact? && a.level == 1 && a.inputs0 == [f] && a.inputs1 == [g] == OverlappedBy(st.levels[2], [f])
    requires a.oldest == SmallestSnapshot(st) && TableContents(a.outputs) == tables
    requires forall i | 0 <= i < |a.outputs| ::
        a.outputs[i].number == st.nextFile + i && a.outputs[i].size == |a.outputs[i].entries|
    requires forall k | 0 <= k < |tables| :: 1 <= |tables[k]| <= 2 && (k < |tables| - 1 ==> |tables[k]| == 2)
    ensures Answers(st, 1, Automatic(BySize(None)), a, OPTIONS)
  {
    hide Inv, OverlappedBy, AreChosen, HiddenIn, Obsolete, Survivors, Written, EntriesOf, FreshNumbers, InputsOk,
        TotalFileSize, Cutting.CutRight, Sorted, Grandparents, TableContents;
    OnlyFileChosen(st.levels, f);
    NothingTwoDown([f], st.levels[2], f, g);
    CutByCount(a.input, tables);
    KeepsWhatIsNeeded(st, a, OPTIONS);
  }

  lemma {:induction false} LowerInputs()
    ensures OverlappedBy([SEVENS], [AROUND]) == [SEVENS] && OverlappedBy([LOWER, LEFT_OUT], [UPPER]) == [LOWER]
  {
    hide Overlapping, InputsOk;
    OneInput(Two([AROUND], [SEVENS]), AROUND);
    OneInput(Two([UPPER], [LOWER, LEFT_OUT]), UPPER);
    OverlappingOne(SEVENS, 2.0, 8.0);
    OverlappingTwo(LOWER, LEFT_OUT, 2.0, 2.0);
    assert [LOWER] + [] == [LOWER];
  }

  /** Both compactions of the run are what a size compaction of level 1 does then: its inputs are the
      ones chosen, it keeps what the snapshots of that moment need, and its tables end where they should. */
  lemma {:induction false} CompactionsAsMade()
    ensures Answers(STATES[8], 1, Automatic(BySize(None)), ACTIONS[8], OPTIONS)
    ensures Answers(STATES[13], 1, Automatic(BySize(None)), ACTIONS[13], OPTIONS)
  {
    hide Inv, Enabled, After, Answers, OverlappedBy, InputsOk, IsRun, Survivors, Written;
    RunIsLegal();
    FirstCompaction();
    LastCompaction();
    RunKeepsInv(STATES, ACTIONS, OPTIONS, 8);
    RunKeepsInv(STATES, ACTIONS, OPTIONS, 13);
    LowerInputs();
    AsAnswered(STATES[8], AROUND, SEVENS, ACTIONS[8], [[PUT2, DELETE7], [PUT7, PUT8]]);
    AsAnswered(STATES[13], UPPER, LOWER, ACTIONS[13], [[AGAIN2]]);
  }

  // ---------- The key comes back ----------

  lemma {:induction false} EntriesOfLevels(a: seq<File>, b: seq<File>)
    ensures AllEntries(Two(a, b), 0) == EntriesOf(a) + EntriesOf(b)
  {
    hide EntriesOf;
    assert EntriesOf([]) == {} by { NoEntries(); }
    forall l | 0 <= l < NUM_LEVELS ensures Two(a, b)[l] == if l == 1 then a else if l == 2 then b else [] {
      LevelOfTwo(a, b, l);
    }
    assert EntriesOf(Two(a, b)[1]) == EntriesOf(a) && EntriesOf(Two(a, b)[2]) == EntriesOf(b);
  }

  lemma {:induction false} NoEntries()
    ensures EntriesOf([]) == {}
  {
  }

  lemma {:induction false} LevelEntries()
    ensures EntriesOf([UPPER]) == {AGAIN2} && EntriesOf([LOWER, LEFT_OUT]) == {PUT2, DELETE7, PUT7, PUT8}
    ensures EntriesOf([RESULT, LEFT_OUT]) == {AGAIN2, PUT7, PUT8} && EntriesOf([]) == {}
  {
    EntriesOfTwo(LOWER, LEFT_OUT);
    EntriesOfTwo(RESULT, LEFT_OUT);
    NoEntries();
    assert EntriesOf([UPPER]) == SetOf(UPPER.entries) by { assert UPPER in [UPPER]; }
    hide EntriesOf;
    assert [LOWER] + [LEFT_OUT] == [LOWER, LEFT_OUT] && [RESULT] + [LEFT_OUT] == [RESULT, LEFT_OUT];
    assert SetOf([AGAIN2]) == {AGAIN2} && SetOf([PUT2, DELETE7]) == {PUT2, DELETE7}
        && SetOf([PUT7, PUT8]) == {PUT7, PUT8};
  }

  lemma {:induction false} Stores()
    ensures All(STATES[13]) == {AGAIN2, PUT2, DELETE7, PUT7, PUT8} && STATES[13].lastSequence == 5
    ensures All(STATES[14]) == {AGAIN2, PUT7, PUT8} && STATES[14].lastSequence == 5
  {
    hide EntriesOf, AllEntries;
    LevelEntries();
    EntriesOfLevels([UPPER], [LOWER, LEFT_OUT]);
    EntriesOfLevels([], [RESULT, LEFT_OUT]);
    assert SetOf<Entry>([]) == {};
  }

  lemma {:induction false} NewestSevens()
    ensures Newest({AGAIN2, PUT2, DELETE7, PUT7, PUT8}, 7.0, 5, DELETE7)
    ensures Newest({AGAIN2, PUT7, PUT8}, 7.0, 5, PUT7)
  {
  }

  /** In this run from the empty store key 7 is deleted and reads as deleted, until the last
      compaction makes it read as its old value. */
  lemma {:induction false} DeletedKeyReturns()
    ensures IsRun(STATES, ACTIONS, OPTIONS)
    ensures ReadAt(STATES[13], 7.0, 5) == None
    ensures ReadAt(STATES[14], 7.0, 5) == Some(VALUE)
    ensures ResurrectsKey(STATES[13], 1, [UPPER], [LOWER], 5, 5, 7.0)
  {
    hide Inv, All, IsRun, Enabled, After, Read, Newest, Distinct, ResurrectsKey;
    RunIsLegal();
    Stores();
    NewestSevens();
    RunKeepsInv(STATES, ACTIONS, OPTIONS, 13);
    RunKeepsInv(STATES, ACTIONS, OPTIONS, 14);
    InvSequences(STATES[13]);
    InvSequences(STATES[14]);
    ReadNewest(All(STATES[13]), 7.0, 5, DELETE7);
    ReadNewest(All(STATES[14]), 7.0, 5, PUT7);
    LastCompaction();
    ReadChanges(STATES[13], STATES[14], [UPPER], [LOWER], 5, [AGAIN2, PUT2, DELETE7], [RESULT], 7.0);
  }

  /** A compaction that changes a read resurrects the key. */
  lemma {:induction false} ReadChanges(a: State, b: State, in0: seq<File>, in1: seq<File>, oldest: SequenceNumber,
                                       input: seq<Entry>, outs: seq<File>, u: UserKey)
    requires Inv(a) && Steps(a, Compact(1, in0, in1, oldest, input, outs), b)
        && ReadAt(a, u, oldest) != ReadAt(b, u, oldest)
    ensures ResurrectsKey(a, 1, in0, in1, oldest, oldest, u)
  {
    hide Inv, All, Enabled, After, Read, ResurrectsKey;
    CompactionReadsExactly(a, 1, in0, in1, oldest, input, outs, OPTIONS, oldest, u);
  }
}
