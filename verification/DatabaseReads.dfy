/** What each step does to reads, and what whole runs keep. */
module DatabaseReads {
  import opened Format
  import opened Versions
  import opened VersionBuilder
  import opened CompactionInputs
  import opened CompactionWork
  import opened CompactionReads
  import opened Database
  import opened DatabaseInvariant
  import opened DatabaseRuns

  ghost function ReadAt(st: State, u: UserKey, s: SequenceNumber): Option<Bytes> {
    Read(All(st), u, s)
  }

  // ---------- The surroundings of a compaction ----------

  /** The files of a level that are not inputs. */
  ghost function Kept(files: seq<File>, inputs: seq<File>): set<Entry> {
    set f, e | f in files && f !in inputs && e in f.entries :: e
  }

  ghost function LevelsAbove(levels: Levels, level: nat): set<Entry>
    requires level <= NUM_LEVELS
  {
    set l, e | 0 <= l < level && e in EntriesOf(levels[l]) :: e
  }

  ghost function SurroundingsOf(st: State, level: nat, in0: seq<File>, in1: seq<File>): Surroundings
    requires level + 1 < NUM_LEVELS
  {
    Surroundings(SetOf(st.mem) + ImmSet(st) + LevelsAbove(st.levels, level) + Kept(st.levels[level], in0),
                 Kept(st.levels[level + 1], in1),
                 AllEntries(st.levels, level + 2))
  }

  /** The tombstones a compaction drops because nothing below can be under them. */
  ghost function ObsoleteOf(st: State, level: nat, in0: seq<File>, in1: seq<File>, oldest: SequenceNumber): set<Entry> {
    set d | d in EntriesOf(in0 + in1) && Obsolete(st.levels, level, d, oldest)
  }

  /** Compacting these inputs now would bring a deleted key back for readers at `at`. */
  ghost predicate ResurrectsKey(st: State, level: nat, in0: seq<File>, in1: seq<File>, oldest: SequenceNumber,
      at: SequenceNumber, u: UserKey)
    requires level + 1 < NUM_LEVELS
  {
    Resurrects(SurroundingsOf(st, level, in0, in1), EntriesOf(in0 + in1), ObsoleteOf(st, level, in0, in1, oldest), at,
        u)
  }

  lemma {:induction false} KeptAndInputs(files: seq<File>, inputs: seq<File>)
    requires forall f | f in inputs :: f in files
    ensures Kept(files, inputs) + EntriesOf(inputs) == EntriesOf(files)
  {
  }

  lemma {:induction false} LevelsSplit(levels: Levels, level: nat)
    requires level + 1 < NUM_LEVELS
    ensures AllEntries(levels, 0) ==
              LevelsAbove(levels, level) + EntriesOf(levels[level]) + EntriesOf(levels[level + 1])
                  + AllEntries(levels, level + 2)
  {
    hide EntriesOf;
    var parts := LevelsAbove(levels, level) + EntriesOf(levels[level]) + EntriesOf(levels[level + 1])
        + AllEntries(levels, level + 2);
    forall l, e | 0 <= l < NUM_LEVELS && e in EntriesOf(levels[l]) ensures e in parts {
      assert l < level || l == level || l == level + 1 || l >= level + 2;
    }
    forall e | e in parts ensures e in AllEntries(levels, 0) {
    }
  }

  /** The whole store is the surroundings and the inputs. */
  lemma {:induction false} SurroundedInputs(st: State, level: nat, in0: seq<File>, in1: seq<File>)
    requires level + 1 < NUM_LEVELS
    requires (forall f | f in in0 :: f in st.levels[level]) && (forall f | f in in1 :: f in st.levels[level + 1])
    ensures All(st) == SurroundingsOf(st, level, in0, in1).Rest() + EntriesOf(in0 + in1)
  {
    hide EntriesOf, AllEntries, LevelsAbove, Kept;
    LevelsSplit(st.levels, level);
    KeptAndInputs(st.levels[level], in0);
    KeptAndInputs(st.levels[level + 1], in1);
    EntriesOfBoth(in0, in1);
  }

  lemma {:induction false} KeptNewerThanInputs(files: seq<File>, in0: seq<File>)
    requires LeftBehindIsNewer(files, in0)
    ensures Newer(Kept(files, in0), EntriesOf(in0))
  {
    forall x, y | x in Kept(files, in0) && y in EntriesOf(in0) && x.key.user == y.key.user
      ensures x.key.sequence > y.key.sequence
    {
      var f :| f in files && f !in in0 && x in f.entries;
      var g :| g in in0 && y in g.entries;
      assert x in SetOf(f.entries) && y in SetOf(g.entries);
    }
  }

  lemma {:induction false} KeptApartFromInputs(files: seq<File>, in1: seq<File>)
    requires LevelSorted(files) && forall f | f in in1 :: f in files
    ensures Kept(files, in1) !! EntriesOf(in1)
  {
    hide LevelSorted, Less, Sorted;
    SortedIsInOrder(files);
    forall e | e in Kept(files, in1) && e in EntriesOf(in1) ensures false {
      var f :| f in files && f !in in1 && e in f.entries;
      var g :| g in in1 && e in g.entries;
      InOneRangeOnly(f, g, e);
    }
  }

  lemma {:induction false} InOneRangeOnly(f: File, g: File, e: Entry)
    requires RangesDisjoint(f, g) && e in f.entries
    ensures e !in g.entries
  {
    EntryWithinFile(f, e);
    if e in g.entries {
      EntryWithinFile(g, e);
    }
  }

  lemma {:induction false} NewerIsApart(a: set<Entry>, b: set<Entry>)
    requires Newer(a, b)
    ensures a !! b
  {
  }

  /** Above the inputs everything is newer; beside and below them nothing is an input. */
  lemma {:induction false} CompactionSurroundings(st: State, level: nat, in0: seq<File>, in1: seq<File>)
    requires level + 1 < NUM_LEVELS && Inv(st) && InputsOk(st.levels, level, in0, in1)
    ensures SurroundingsOf(st, level, in0, in1).Around(EntriesOf(in0 + in1))
  {
    hide LevelSorted, LeftBehindIsNewer, Overlapping, MinUser, MaxUser, FilesOk, Distinct;
    var levels := st.levels;
    var input := EntriesOf(in0 + in1);
    LowerInputsAreFiles(levels, level, in0, in1);
    SurroundedInputs(st, level, in0, in1);
    EntriesOfBoth(in0, in1);
    EntriesOfMonotone(in0, levels[level]);
    EntriesOfMonotone(in1, levels[level + 1]);
    KeptNewerThanInputs(levels[level], in0);
    KeptApartFromInputs(levels[level + 1], in1);
    AboveIsNewer(st, level, in0, in1);
    BelowAndBesideApart(st, level, in0, in1);
    NewerIsApart(SurroundingsOf(st, level, in0, in1).above, input);
  }

  lemma {:induction false} AboveIsNewer(st: State, level: nat, in0: seq<File>, in1: seq<File>)
    requires level + 1 < NUM_LEVELS && AgesOk(st)
    requires forall l, m :: 0 <= l < m < NUM_LEVELS ==> Newer(EntriesOf(st.levels[l]), EntriesOf(st.levels[m]))
    requires EntriesOf(in0) <= EntriesOf(st.levels[level]) && EntriesOf(in1) <= EntriesOf(st.levels[level + 1])
    requires EntriesOf(in0 + in1) == EntriesOf(in0) + EntriesOf(in1)
    requires Newer(Kept(st.levels[level], in0), EntriesOf(in0))
    ensures Newer(SurroundingsOf(st, level, in0, in1).above, EntriesOf(in0 + in1))
  {
    var levels := st.levels;
    var input := EntriesOf(in0 + in1);
    assert Kept(levels[level], in0) <= EntriesOf(levels[level]);
    hide EntriesOf, Kept;
    assert input <= TableSet(st);
    NewerMonotone(SetOf(st.mem), TableSet(st), SetOf(st.mem), input);
    NewerMonotone(ImmSet(st), TableSet(st), ImmSet(st), input);
    forall x, y | x in LevelsAbove(levels, level) && y in input && x.key.user == y.key.user
      ensures x.key.sequence > y.key.sequence
    {
      var l :| 0 <= l < level && x in EntriesOf(levels[l]);
      assert Newer(EntriesOf(levels[l]), EntriesOf(levels[level]));
      assert Newer(EntriesOf(levels[l]), EntriesOf(levels[level + 1]));
    }
    assert Newer(EntriesOf(levels[level]), EntriesOf(levels[level + 1]));
  }

  lemma {:induction false} BelowAndBesideApart(st: State, level: nat, in0: seq<File>, in1: seq<File>)
    requires level + 1 < NUM_LEVELS
    requires forall l, m :: 0 <= l < m < NUM_LEVELS ==> Newer(EntriesOf(st.levels[l]), EntriesOf(st.levels[m]))
    requires EntriesOf(in0) <= EntriesOf(st.levels[level]) && EntriesOf(in1) <= EntriesOf(st.levels[level + 1])
    requires EntriesOf(in0 + in1) == EntriesOf(in0) + EntriesOf(in1)
    requires Kept(st.levels[level + 1], in1) !! EntriesOf(in1)
    ensures (Kept(st.levels[level + 1], in1) + AllEntries(st.levels, level + 2)) !! EntriesOf(in0 + in1)
  {
    var levels := st.levels;
    assert Kept(levels[level + 1], in1) <= EntriesOf(levels[level + 1]);
    hide EntriesOf, Kept, Newer;
    assert Newer(EntriesOf(levels[level]), EntriesOf(levels[level + 1]));
    NewerIsApart(EntriesOf(levels[level]), EntriesOf(levels[level + 1]));
    forall e | e in AllEntries(levels, level + 2)
        ensures e !in EntriesOf(levels[level]) && e !in EntriesOf(levels[level + 1]) {
      var l :| level + 2 <= l < NUM_LEVELS && e in EntriesOf(levels[l]);
      assert Newer(EntriesOf(levels[level]), EntriesOf(levels[l]));
      assert Newer(EntriesOf(levels[level + 1]), EntriesOf(levels[l]));
      NewerIsApart(EntriesOf(levels[level]), EntriesOf(levels[l]));
      NewerIsApart(EntriesOf(levels[level + 1]), EntriesOf(levels[l]));
    }
  }

  // ---------- The store after a compaction ----------

  lemma {:induction false} CompactedStore(st: State, level: nat, in0: seq<File>, in1: seq<File>,
      oldest: SequenceNumber, input: seq<Entry>, outs: seq<File>, o: Options)
    requires Inv(st) && Enabled(st, Compact(level, in0, in1, oldest, input, outs), o)
    ensures All(After(st, Compact(level, in0, in1, oldest, input, outs), o))
        == SurroundingsOf(st, level, in0, in1).Rest() + EntriesOf(outs)
  {
    hide Inv, InputsOk, IsInput, Survivors, Written, EntriesOf, AllEntries, Edited;
    var after := After(st, Compact(level, in0, in1, oldest, input, outs), o);
    CompactKeepsInv(st, level, in0, in1, oldest, input, outs, o);
    LevelsSplit(after.levels, level);
    ReplacedAround(st.levels, after.levels, level, in0, in1, outs);
    assert All(after) == SetOf(st.mem) + ImmSet(st) + TableSet(after);
  }

  lemma {:induction false} ReplacedAround(levels: Levels, after: Levels, n: nat, in0: seq<File>, in1: seq<File>,
      outs: seq<File>)
    requires n + 1 < NUM_LEVELS && Replaced(levels, after, n, in0, in1, outs)
    ensures LevelsAbove(after, n) == LevelsAbove(levels, n)
    ensures EntriesOf(after[n]) == Kept(levels[n], in0)
    ensures EntriesOf(after[n + 1]) == Kept(levels[n + 1], in1) + EntriesOf(outs)
    ensures AllEntries(after, n + 2) == AllEntries(levels, n + 2)
  {
    hide InOrder;
    var both := Kept(levels[n + 1], in1) + EntriesOf(outs);
    forall e | e in both ensures e in EntriesOf(after[n + 1]) {
      if e in EntriesOf(outs) {
        var f :| f in outs && e in f.entries;
        assert f in after[n + 1];
      }
    }
    forall f, e | f in after[n + 1] && e in f.entries ensures e in both {
    }
  }

  /** The output files hold exactly the inputs that are neither hidden nor obsolete. */
  lemma {:induction false} OutputsKeep(st: State, level: nat, in0: seq<File>, in1: seq<File>, oldest: SequenceNumber,
      input: seq<Entry>, outs: seq<File>, o: Options)
    requires Inv(st) && Enabled(st, Compact(level, in0, in1, oldest, input, outs), o)
    ensures Keeps(EntriesOf(in0 + in1), EntriesOf(outs), ObsoleteOf(st, level, in0, in1, oldest), oldest)
  {
    hide Inv, InputsOk, Written, Survivors, EntriesOf, Obsolete, HiddenIn, Sorted, Distinct;
    CompactionWrites(st, level, in0, in1, oldest, input, outs, o);
    CutFilesDisjoint(outs);
    InputsAreDistinct(st, level, in0, in1);
    forall e ensures e in EntriesOf(outs) <==>
                       e in EntriesOf(in0 + in1) && !HiddenIn(EntriesOf(in0 + in1), e, oldest)
                       && e !in ObsoleteOf(st, level, in0, in1, oldest)
    {
      SurvivorsHold(st.levels, level, input, oldest, e);
      assert e in SetOf(Written(outs)) <==> e in Written(outs);
      assert e in SetOf(input) <==> e in input;
    }
    ObsoleteAreVisibleTombstones(st, level, in0, in1, oldest);
  }

  lemma {:induction false} ObsoleteAreVisibleTombstones(st: State, level: nat, in0: seq<File>, in1: seq<File>,
      oldest: SequenceNumber)
    ensures forall d | d in ObsoleteOf(st, level, in0, in1, oldest) ::
              d in EntriesOf(in0 + in1) && d.key.kind == Deletion && d.key.sequence <= oldest
  {
  }

  lemma {:induction false} InputsAreDistinct(st: State, level: nat, in0: seq<File>, in1: seq<File>)
    requires level + 1 < NUM_LEVELS && Inv(st) && InputsOk(st.levels, level, in0, in1)
    ensures Distinct(EntriesOf(in0 + in1))
  {
    hide InputsOk, Inv, EntriesOf, Distinct;
    CompactionSurroundings(st, level, in0, in1);
    DistinctSubset(SurroundingsOf(st, level, in0, in1).Rest() + EntriesOf(in0 + in1), EntriesOf(in0 + in1));
  }

  lemma {:induction false} NothingBelowObsolete(st: State, level: nat, in0: seq<File>, in1: seq<File>,
      oldest: SequenceNumber)
    requires level + 1 < NUM_LEVELS
    ensures forall d, x | d in ObsoleteOf(st, level, in0, in1, oldest) && x in AllEntries(st.levels, level + 2) ::
        d.key.user != x.key.user
  {
    forall d, x | d in ObsoleteOf(st, level, in0, in1, oldest) && x in AllEntries(st.levels, level + 2)
        ensures d.key.user != x.key.user {
      var l :| level + 2 <= l < NUM_LEVELS && x in EntriesOf(st.levels[l]);
      var f :| f in st.levels[l] && x in f.entries;
      EntryWithinFile(f, x);
    }
  }

  /** A compaction preserves every read of `u` at every sequence number from `at` on, at or after the
      oldest one it was told to keep, if and only if its inputs do not resurrect `u` at `at`. */
  lemma {:induction false} CompactionReadsExactly(st: State, level: nat, in0: seq<File>, in1: seq<File>,
      oldest: SequenceNumber, input: seq<Entry>, outs: seq<File>, o: Options, at: SequenceNumber, u: UserKey)
    requires Inv(st) && Enabled(st, Compact(level, in0, in1, oldest, input, outs), o) && oldest <= at
    ensures (forall s: SequenceNumber | at <= s ::
               ReadAt(After(st, Compact(level, in0, in1, oldest, input, outs), o), u, s) == ReadAt(st, u, s))
            <==> !ResurrectsKey(st, level, in0, in1, oldest, at, u)
  {
    hide Inv, After, Enabled, SurroundingsOf, EntriesOf, Keeps, Read, Resurrects, ObsoleteOf, All;
    CompactionIsEnabled(st, level, in0, in1, oldest, input, outs, o);
    CompactedStore(st, level, in0, in1, oldest, input, outs, o);
    OutputsKeep(st, level, in0, in1, oldest, input, outs, o);
    CompactionSurroundings(st, level, in0, in1);
    CompactionInputsInStore(st, level, in0, in1, oldest);
    CompactionPreservesReads(SurroundingsOf(st, level, in0, in1), EntriesOf(in0 + in1), EntriesOf(outs),
                             ObsoleteOf(st, level, in0, in1, oldest), oldest, at, u);
    var around := SurroundingsOf(st, level, in0, in1);
    forall s: SequenceNumber
      ensures ReadAt(After(st, Compact(level, in0, in1, oldest, input, outs), o), u, s)
          == Read(around.Rest() + EntriesOf(outs), u, s)
      ensures ReadAt(st, u, s) == Read(around.Rest() + EntriesOf(in0 + in1), u, s)
    {
    }
  }

  lemma {:induction false} CompactionIsEnabled(st: State, level: nat, in0: seq<File>, in1: seq<File>,
      oldest: SequenceNumber, input: seq<Entry>, outs: seq<File>, o: Options)
    requires Enabled(st, Compact(level, in0, in1, oldest, input, outs), o)
    ensures level + 1 < NUM_LEVELS && InputsOk(st.levels, level, in0, in1)
  {
  }

  lemma {:induction false} CompactionInputsInStore(st: State, level: nat, in0: seq<File>, in1: seq<File>,
      oldest: SequenceNumber)
    requires level + 1 < NUM_LEVELS && InputsOk(st.levels, level, in0, in1)
    ensures All(st) == SurroundingsOf(st, level, in0, in1).Rest() + EntriesOf(in0 + in1)
    ensures forall d, x | d in ObsoleteOf(st, level, in0, in1, oldest)
        && x in SurroundingsOf(st, level, in0, in1).below ::
              d.key.user != x.key.user
  {
    hide EntriesOf, AllEntries, LeftBehindIsNewer, MinUser, MaxUser, Overlapping, ObsoleteOf;
    LowerInputsAreFiles(st.levels, level, in0, in1);
    SurroundedInputs(st, level, in0, in1);
    NothingBelowObsolete(st, level, in0, in1, oldest);
  }

  /** When no file left at the output level shares a user key with the inputs, nothing can be
      resurrected. */
  lemma {:induction false} NoSharedKeyIsSafe(st: State, level: nat, in0: seq<File>, in1: seq<File>,
      oldest: SequenceNumber, at: SequenceNumber, u: UserKey)
    requires level + 1 < NUM_LEVELS
    requires forall x, y | x in Kept(st.levels[level + 1], in1) && y in EntriesOf(in0 + in1) :: x.key.user != y.key.user
    ensures !ResurrectsKey(st, level, in0, in1, oldest, at, u)
  {
    hide EntriesOf, Kept;
  }

  // ---------- The other steps ----------

  /** A switch, a flush, a trivial move and the snapshot calls change no read at any snapshot. */
  lemma {:induction false} StoreKept(st: State, a: Action, o: Options)
    requires Inv(st) && Enabled(st, a, o) && !a.Write? && !a.Compact?
    ensures All(After(st, a, o)) == All(st)
    ensures SmallestSnapshot(st) <= SmallestSnapshot(After(st, a, o))
  {
    hide Inv, All;
    match a
    case SwitchMemTable => SwitchKeepsInv(st, o);
    case CompactMemTable(level, number) => FlushKeepsInv(st, level, number, o);
    case TrivialMove(level, f) => MoveKeepsInv(st, level, f, o);
    case GetSnapshot => SnapshotKeepsInv(st, a, o);
    case ReleaseSnapshot(_) => SnapshotKeepsInv(st, a, o);
  }

  /** The last operation of a batch on a key, if any. */
  function LastOn(ops: seq<Op>, u: UserKey): Option<Op> {
    if ops == [] then None
    else if ops[|ops| - 1].user == u then Some(ops[|ops| - 1])
    else LastOn(ops[..|ops| - 1], u)
  }

  lemma {:induction false} LastOnIsNewest(ops: seq<Op>, first: nat, u: UserKey)
    requires first + |ops| <= MAX_SEQUENCE + 1
    ensures LastOn(ops, u).None? ==> forall e | e in BatchSet(ops, first) :: e.key.user != u
    ensures LastOn(ops, u).Some? ==>
              exists i :: 0 <= i < |ops| && ops[i] == LastOn(ops, u).value && ops[i].user == u &&
                          forall e | e in BatchSet(ops, first) && e.key.user == u :: e.key.sequence <= first + i
  {
    if ops != [] {
      var n := |ops| - 1;
      BatchSetSnoc(ops, first);
      LastOnIsNewest(ops[..n], first, u);
      if ops[n].user == u {
        BatchSequences(ops, first);
      }
    }
  }

  function OpValue(op: Op): Option<Bytes> {
    if op.PutOp? then Some(op.value) else None
  }

  /** A write leaves every earlier snapshot as it was; now its last operation on a key decides. */
  lemma {:induction false} WriteReads(st: State, ops: seq<Op>, o: Options, u: UserKey, s: SequenceNumber)
    requires Inv(st) && Enabled(st, Write(ops), o)
    ensures s <= st.lastSequence ==> ReadAt(After(st, Write(ops), o), u, s) == ReadAt(st, u, s)
    ensures ReadAt(After(st, Write(ops), o), u, st.lastSequence + |ops|) ==
              if LastOn(ops, u).Some? then OpValue(LastOn(ops, u).value) else ReadAt(st, u, st.lastSequence)
  {
    hide Inv, Enabled, After, All, BatchSet, Read, Distinct, LastOn;
    var after := After(st, Write(ops), o);
    WriteLastSequence(st, ops, o);
    var first, last := st.lastSequence + 1, st.lastSequence + |ops|;
    var batch := BatchSet(ops, first);
    WriteKeepsInv(st, ops, o);
    BatchSequences(ops, first);
    InvSequences(st);
    InvSequences(after);
    if s <= st.lastSequence {
      SameReads(All(st), All(after), u, s, s);
    }
    LastOnIsNewest(ops, first, u);
    if LastOn(ops, u).Some? {
      var i :| 0 <= i < |ops| && ops[i] == LastOn(ops, u).value && ops[i].user == u
               && forall e | e in batch && e.key.user == u :: e.key.sequence <= first + i;
      var e := EntryOf(ops[i], first + i);
      OpInBatch(ops, first, i);
      ReadNewest(All(after), u, last, e);
    } else {
      SameReads(All(st), All(after), u, st.lastSequence, last);
    }
  }

  lemma {:induction false} InvSequences(st: State)
    requires Inv(st)
    ensures Distinct(All(st)) && forall e | e in All(st) :: e.key.sequence <= st.lastSequence
  {
  }

  lemma {:induction false} WriteLastSequence(st: State, ops: seq<Op>, o: Options)
    requires Enabled(st, Write(ops), o)
    ensures st.lastSequence + |ops| < MAX_SEQUENCE
    ensures After(st, Write(ops), o).lastSequence == st.lastSequence + |ops|
  {
  }

  lemma {:induction false} OpInBatch(ops: seq<Op>, first: nat, i: nat)
    requires first + |ops| <= MAX_SEQUENCE + 1 && i < |ops|
    ensures EntryOf(ops[i], first + i) in BatchSet(ops, first)
  {
  }

  /** Two stores that see the same entries of a key read alike. */
  lemma {:induction false} SameReads(a: set<Entry>, b: set<Entry>, u: UserKey, s: SequenceNumber, t: SequenceNumber)
    requires Distinct(a) && Distinct(b)
    requires forall e :: (e in a && Sees(e, u, s)) <==> (e in b && Sees(e, u, t))
    ensures Read(a, u, s) == Read(b, u, t)
  {
    if Unseen(a, u, s) {
      ReadUnseen(a, u, s);
      ReadUnseen(b, u, t);
    } else {
      var e := NewestExists(a, u, s);
      ReadNewest(a, u, s, e);
      ReadNewest(b, u, t, e);
    }
  }

  // ---------- Runs ----------

  lemma {:induction false} InitialInv()
    ensures Inv(INITIAL) && All(INITIAL) == {}
  {
    NothingInitially();
    assert VersionOk(NO_FILES) by { EmptyVersionOk(); }
    assert FilesOk(NO_FILES, 2) by { EmptyVersionOk(); }
    hide VersionOk, FilesOk, AllEntries;
    assert SetOf(INITIAL.mem) == {};
    assert All(INITIAL) == {};
  }

  lemma {:induction false} NothingInitially()
    ensures AllEntries(NO_FILES, 0) == {} && forall l | 0 <= l < NUM_LEVELS :: NO_FILES[l] == []
  {
    assert forall l | 0 <= l < NUM_LEVELS :: NO_FILES[l] == [];
    assert EntriesOf([]) == {};
  }

  lemma {:induction false} EmptyVersionOk()
    ensures VersionOk(NO_FILES) && FilesOk(NO_FILES, 2)
  {
    NothingInitially();
    hide AllEntries;
    assert EntriesOf([]) == {};
  }

  /** The invariant holds in every state of every run. */
  lemma {:induction false} RunKeepsInv(states: seq<State>, actions: seq<Action>, o: Options, i: nat)
    requires IsRun(states, actions, o) && i < |states|
    ensures Inv(states[i])
  {
    hide Inv, After, Enabled;
    if i == 0 {
      InitialInv();
    } else {
      RunKeepsInv(states, actions, o, i - 1);
      StepKeepsInv(states[i - 1], actions[i - 1], o);
    }
  }

  /** Everything ever written, had nothing ever been compacted away. */
  ghost function History(states: seq<State>, actions: seq<Action>, o: Options, i: nat): set<Entry>
    requires IsRun(states, actions, o) && i < |states|
  {
    if i == 0 then {}
    else
      var before := History(states, actions, o, i - 1);
      match actions[i - 1]
      case Write(ops) => before + BatchSet(ops, states[i - 1].lastSequence + 1)
      case _ => before
  }

  /** Does a step bring back a key that a reader may still ask for? */
  ghost predicate ResurrectsAny(st: State, a: Action) {
    && a.Compact? && a.level + 1 < NUM_LEVELS
    && exists u :: ResurrectsKey(st, a.level, a.inputs0, a.inputs1, a.oldest, SmallestSnapshot(st), u)
  }

  /** No compaction of the run resurrects a key for readers that may still come. */
  ghost predicate SafeCompactions(states: seq<State>, actions: seq<Action>, o: Options)
    requires IsRun(states, actions, o)
  {
    forall i | 0 <= i < |actions| :: !ResurrectsAny(states[i], actions[i])
  }

  /** Every read of u from a sequence number on returns what a history says. */
  ghost predicate ReadsFrom(st: State, history: set<Entry>, from: SequenceNumber, u: UserKey) {
    forall s: SequenceNumber | from <= s :: ReadAt(st, u, s) == Read(history, u, s)
  }

  ghost predicate AgreesWith(st: State, history: set<Entry>) {
    && Distinct(history) && (forall e | e in history :: e.key.sequence <= st.lastSequence)
    && forall u :: ReadsFrom(st, history, SmallestSnapshot(st), u)
  }

  lemma {:induction false} WriteAgrees(st: State, history: set<Entry>, ops: seq<Op>, o: Options)
    requires Inv(st) && AgreesWith(st, history) && Enabled(st, Write(ops), o)
    ensures AgreesWith(After(st, Write(ops), o), history + BatchSet(ops, st.lastSequence + 1))
  {
    hide BatchSet, Read, VersionOk, FilesOk, AllEntries;
    var after := After(st, Write(ops), o);
    var batch := BatchSet(ops, st.lastSequence + 1);
    WriteKeepsInv(st, ops, o);
    BatchSequences(ops, st.lastSequence + 1);
    FreshEntries(history, batch, st.lastSequence);
    forall u ensures ReadsFrom(after, history + batch, SmallestSnapshot(after), u) {
      assert ReadsFrom(st, history, SmallestSnapshot(st), u);
      AddedReads(st, after, history, batch, SmallestSnapshot(st), SmallestSnapshot(after), u);
    }
  }

  lemma {:induction false} AddedReads(st: State, after: State, history: set<Entry>, batch: set<Entry>,
      from: SequenceNumber, from': SequenceNumber, u: UserKey)
    requires ReadsFrom(st, history, from, u) && from <= from' && All(after) == All(st) + batch
    requires Distinct(All(st) + batch) && Distinct(history + batch)
    requires forall e | e in All(st) + history :: e.key.sequence <= st.lastSequence
    requires forall e | e in batch :: e.key.sequence > st.lastSequence
    ensures ReadsFrom(after, history + batch, from', u)
  {
    hide Read, All, Distinct;
    forall s: SequenceNumber | from' <= s ensures ReadAt(after, u, s) == Read(history + batch, u, s) {
      assert ReadAt(st, u, s) == Read(history, u, s);
      AddedAlike(All(st), history, batch, st.lastSequence, u, s);
    }
  }

  /** Adding the same newer entries to two stores that read alike keeps them alike. */
  lemma {:induction false} AddedAlike(a: set<Entry>, b: set<Entry>, batch: set<Entry>, last: nat, u: UserKey,
      s: SequenceNumber)
    requires Distinct(a + batch) && Distinct(b + batch)
    requires forall e | e in a + b :: e.key.sequence <= last
    requires forall e | e in batch :: e.key.sequence > last
    requires Read(a, u, s) == Read(b, u, s)
    ensures Read(a + batch, u, s) == Read(b + batch, u, s)
  {
    hide Read;
    if Unseen(batch, u, s) {
      SameReads(a, a + batch, u, s, s);
      SameReads(b, b + batch, u, s, s);
    } else {
      var e := NewestExists(batch, u, s);
      ReadNewest(a + batch, u, s, e);
      ReadNewest(b + batch, u, s, e);
    }
  }

  lemma {:induction false} RunReadsHistoryTo(states: seq<State>, actions: seq<Action>, o: Options, i: nat)
    requires IsRun(states, actions, o) && i < |states| && SafeCompactions(states, actions, o)
    ensures AgreesWith(states[i], History(states, actions, o, i))
  {
    hide Inv, After, Enabled, Read, ResurrectsKey, AgreesWith;
    if i == 0 {
      InitialAgrees();
    } else {
      RunReadsHistoryTo(states, actions, o, i - 1);
      RunKeepsInv(states, actions, o, i - 1);
      var st, a, history := states[i - 1], actions[i - 1], History(states, actions, o, i - 1);
      if a.Write? {
        WriteAgrees(st, history, a.ops, o);
      } else {
        OtherAgrees(st, history, a, o);
      }
    }
  }

  lemma {:induction false} InitialAgrees()
    ensures AgreesWith(INITIAL, {})
  {
    InitialInv();
    hide Inv, All, Read;
    assert forall u, s :: ReadAt(INITIAL, u, s) == Read({}, u, s);
  }

  lemma {:induction false} KeepsLastSequence(st: State, a: Action, o: Options)
    requires Enabled(st, a, o) && !a.Write?
    ensures After(st, a, o).lastSequence == st.lastSequence
    ensures a.Compact? ==> a.level + 1 < NUM_LEVELS && SmallestSnapshot(After(st, a, o)) == SmallestSnapshot(st)
                           && a.oldest <= SmallestSnapshot(st)
  {
  }

  /** A step other than a write agrees with the same history, if and only if it brings no key back. */
  lemma {:induction false} OtherAgrees(st: State, history: set<Entry>, a: Action, o: Options)
    requires Inv(st) && AgreesWith(st, history) && Enabled(st, a, o) && !a.Write?
    ensures ResurrectsAny(st, a) ==> a.Compact?
    ensures AgreesWith(After(st, a, o), history) <==> !ResurrectsAny(st, a)
  {
    hide Inv, After, Enabled, Read, ResurrectsKey, All;
    KeepsLastSequence(st, a, o);
    if a.Compact? {
      CompactAgrees(st, history, a, o);
    } else {
      StoreKept(st, a, o);
      forall u ensures ReadsFrom(After(st, a, o), history, SmallestSnapshot(After(st, a, o)), u) {
        assert ReadsFrom(st, history, SmallestSnapshot(st), u);
      }
    }
  }

  lemma {:induction false} CompactAgrees(st: State, history: set<Entry>, a: Action, o: Options)
    requires Inv(st) && AgreesWith(st, history) && Enabled(st, a, o) && a.Compact? && a.level + 1 < NUM_LEVELS
    ensures AgreesWith(After(st, a, o), history) <==> !ResurrectsAny(st, a)
  {
    hide Inv, After, Enabled, Read, ResurrectsKey, All;
    KeepsLastSequence(st, a, o);
    var at := SmallestSnapshot(st);
    forall u ensures ReadsFrom(After(st, a, o), history, at, u)
        <==> !ResurrectsKey(st, a.level, a.inputs0, a.inputs1, a.oldest, at, u) {
      CompactionReadsExactly(st, a.level, a.inputs0, a.inputs1, a.oldest, a.input, a.outputs, o, at, u);
      assert ReadsFrom(st, history, at, u);
    }
  }

  /** Every read that a reader may do, in every state of a run, returns what the whole history of
      writes says, if and only if no compaction of the run brings a deleted key back. */
  lemma {:induction false} RunReadsHistory(states: seq<State>, actions: seq<Action>, o: Options)
    requires IsRun(states, actions, o)
    ensures (forall i | 0 <= i < |states| :: AgreesWith(states[i], History(states, actions, o, i)))
            <==> SafeCompactions(states, actions, o)
  {
    hide Inv, After, Enabled, Read, ResurrectsKey, AgreesWith;
    if SafeCompactions(states, actions, o) {
      forall i | 0 <= i < |states| ensures AgreesWith(states[i], History(states, actions, o, i)) {
        RunReadsHistoryTo(states, actions, o, i);
      }
    } else {
      var i :| 0 <= i < |actions| && ResurrectsAny(states[i], actions[i]);
      RunKeepsInv(states, actions, o, i);
      if AgreesWith(states[i], History(states, actions, o, i)) {
        OtherAgrees(states[i], History(states, actions, o, i), actions[i], o);
        assert !AgreesWith(states[i + 1], History(states, actions, o, i + 1));
      }
    }
  }
}
