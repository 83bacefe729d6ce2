/** Along every run of the store the manifest stays faithful: no file number is added twice at a
    level, and the edits logged so far lead to the version in memory. */
module ManifestRuns {
  import opened Format
  import opened Versions
  import opened VersionBuilder
  import opened CompactionInputs
  import opened CompactionWork
  import opened Database
  import opened DatabaseInvariant
  import opened DatabaseRuns
  import opened Manifests

  // ---------- What the edits say ----------

  /** Files added so far: each number stands for one file, which has only moved down since. */
  ghost predicate Past(edits: seq<Edit>, levels: Levels, nextFile: nat) {
    OnlyMovedDown(edits, levels, nextFile) && OneFileEach(edits)
  }

  ghost predicate OnlyMovedDown(edits: seq<Edit>, levels: Levels, nextFile: nat) {
    forall k, a | 0 <= k < |edits| && a in edits[k].added ::
        a.0 < NUM_LEVELS && a.1.number < nextFile && IsOnlyBelow(a, levels)
  }

  ghost predicate IsOnlyBelow(a: (nat, File), levels: Levels) {
    forall m, f | 0 <= m < NUM_LEVELS && f in levels[m] && f.number == a.1.number :: f == a.1 && a.0 <= m
  }

  ghost predicate OneFileEach(edits: seq<Edit>) {
    (forall j, k, a, b | 0 <= j < |edits| && 0 <= k < |edits| && a in edits[j].added && b in edits[k].added
                            && a.1.number == b.1.number :: a.1 == b.1)
  }

  ghost predicate Told(edits: seq<Edit>, levels: Levels, nextFile: nat) {
    AllFresh(edits) && AllInOrder(levels) && levels == EditedAll(NO_FILES, edits) && Past(edits, levels, nextFile)
  }

  /** Files come at one level, with new numbers, or from the level above, which they leave. */
  ghost predicate BringsNew(levels: Levels, nextFile: nat, e: Edit, after: Levels, nextFile': nat, at: nat) {
    && at < NUM_LEVELS && nextFile <= nextFile'
    && (forall a | a in e.added :: a.0 == at && a.1.number < nextFile'
                                   && (nextFile <= a.1.number
                                       || (at > 0 && a.1 in levels[at - 1] && a.1 !in after[at - 1])))
    && (forall a, b | a in e.added && b in e.added && a.1.number == b.1.number :: a.1 == b.1)
    && (forall m, f | 0 <= m < NUM_LEVELS && f in after[m] :: f in levels[m] || (m, f) in e.added)
  }

  /** What is added now was not added there before. */
  lemma {:induction false} NotAddedBefore(edits: seq<Edit>, levels: Levels, nextFile: nat, e: Edit, after: Levels,
      nextFile': nat, at: nat, j: nat, a: (nat, File), b: (nat, File))
    requires Past(edits, levels, nextFile) && BringsNew(levels, nextFile, e, after, nextFile', at) && j < |edits|
    requires a in edits[j].added && b in e.added
    ensures a.0 != b.0 || a.1.number != b.1.number
  {
    hide OneFileEach;
    assert IsOnlyBelow(a, levels);
  }

  lemma {:induction false} NewNumbers(edits: seq<Edit>, levels: Levels, nextFile: nat, e: Edit, after: Levels,
      nextFile': nat, at: nat, j: nat, l: nat)
    requires Past(edits, levels, nextFile) && BringsNew(levels, nextFile, e, after, nextFile', at) && j < |edits|
    ensures NumbersAt(edits[j].added, l) !! NumbersAt(e.added, l)
  {
    hide Past, BringsNew;
    forall a, b | a in edits[j].added && b in e.added ensures a.0 != b.0 || a.1.number != b.1.number {
      NotAddedBefore(edits, levels, nextFile, e, after, nextFile', at, j, a, b);
    }
  }

  lemma {:induction false} StillFresh(edits: seq<Edit>, levels: Levels, nextFile: nat, e: Edit, after: Levels,
      nextFile': nat, at: nat)
    requires AllFresh(edits) && Past(edits, levels, nextFile) && BringsNew(levels, nextFile, e, after, nextFile', at)
    requires forall l | 0 <= l < NUM_LEVELS :: AddsFresh([], e, l)
    ensures AllFresh(edits + [e])
  {
    hide Past, BringsNew, AddsFresh;
    var all := edits + [e];
    forall l | 0 <= l < NUM_LEVELS ensures NumbersFresh([], all, l) {
      assert NumbersFresh([], edits, l);
      forall k | 0 <= k < |all| ensures AddsFresh([], all[k], l) {
        assert k < |edits| ==> all[k] == edits[k];
      }
      forall j, k | 0 <= j < k < |all| ensures NumbersAt(all[j].added, l) !! NumbersAt(all[k].added, l) {
        assert all[j] == edits[j];
        if k == |edits| {
          NewNumbers(edits, levels, nextFile, e, after, nextFile', at, j, l);
        } else {
          assert all[k] == edits[k];
        }
      }
    }
  }

  lemma {:induction false} StillBelow(edits: seq<Edit>, levels: Levels, nextFile: nat, e: Edit, after: Levels,
      nextFile': nat, at: nat, j: nat, a: (nat, File))
    requires Past(edits, levels, nextFile) && BringsNew(levels, nextFile, e, after, nextFile', at) && j < |edits|
        && a in edits[j].added
    ensures a.0 < NUM_LEVELS && a.1.number < nextFile' && IsOnlyBelow(a, after)
  {
    hide OneFileEach;
    assert IsOnlyBelow(a, levels);
  }

  lemma {:induction false} NewIsBelow(levels: Levels, nextFile: nat, e: Edit, after: Levels, nextFile': nat, at: nat,
      a: (nat, File))
    requires FilesOk(levels, nextFile) && BringsNew(levels, nextFile, e, after, nextFile', at) && a in e.added
    ensures a.0 < NUM_LEVELS && a.1.number < nextFile' && IsOnlyBelow(a, after)
  {
    hide InOrder;
    assert forall m, f | 0 <= m < NUM_LEVELS && f in after[m] && f.number == a.1.number :: (m, f) in e.added;
  }

  lemma {:induction false} NewIsSame(edits: seq<Edit>, levels: Levels, nextFile: nat, e: Edit, after: Levels,
      nextFile': nat, at: nat, j: nat, a: (nat, File), b: (nat, File))
    requires Past(edits, levels, nextFile) && BringsNew(levels, nextFile, e, after, nextFile', at) && j < |edits|
    requires a in edits[j].added && b in e.added && a.1.number == b.1.number
    ensures a.1 == b.1
  {
    hide OneFileEach;
    assert IsOnlyBelow(a, levels);
  }

  lemma {:induction false} StillPast(edits: seq<Edit>, levels: Levels, nextFile: nat, e: Edit, after: Levels,
      nextFile': nat, at: nat)
    requires Past(edits, levels, nextFile) && FilesOk(levels, nextFile)
        && BringsNew(levels, nextFile, e, after, nextFile', at)
    ensures Past(edits + [e], after, nextFile')
  {
    hide FilesOk, IsOnlyBelow;
    var all := edits + [e];
    forall k, a | 0 <= k < |all| && a in all[k].added
        ensures a.0 < NUM_LEVELS && a.1.number < nextFile' && IsOnlyBelow(a, after) {
      if k < |edits| {
        StillBelow(edits, levels, nextFile, e, after, nextFile', at, k, a);
      } else {
        NewIsBelow(levels, nextFile, e, after, nextFile', at, a);
      }
    }
    forall j, k, a, b | 0 <= j < |all| && 0 <= k < |all| && a in all[j].added && b in all[k].added
        && a.1.number == b.1.number
      ensures a.1 == b.1
    {
      if j < |edits| && k == |edits| {
        NewIsSame(edits, levels, nextFile, e, after, nextFile', at, j, a, b);
      } else if j == |edits| && k < |edits| {
        NewIsSame(edits, levels, nextFile, e, after, nextFile', at, k, b, a);
      } else if j < |edits| {
        assert a in edits[j].added && b in edits[k].added;
      }
    }
  }

  lemma {:induction false} OneMoreTold(edits: seq<Edit>, levels: Levels, nextFile: nat, e: Edit, nextFile': nat,
      at: nat)
    requires Told(edits, levels, nextFile) && FilesOk(levels, nextFile)
        && BringsNew(levels, nextFile, e, Edited(levels, e), nextFile', at)
    requires AllInOrder(Edited(levels, e)) && forall l | 0 <= l < NUM_LEVELS :: AddsFresh([], e, l)
    ensures Told(edits + [e], Edited(levels, e), nextFile')
  {
    hide Past, BringsNew, AddsFresh, AllFresh, AllInOrder, FilesOk, Edited;
    StillFresh(edits, levels, nextFile, e, Edited(levels, e), nextFile', at);
    StillPast(edits, levels, nextFile, e, Edited(levels, e), nextFile', at);
    EditedAllSnoc(NO_FILES, edits, e);
  }

  // ---------- The edits of the steps ----------

  /** Does a step log an edit? */
  predicate LogsEdit(a: Action) {
    a.CompactMemTable? || a.TrivialMove? || a.Compact?
  }

  /** The edit that a step logs. */
  ghost function EditOf(st: State, a: Action, o: Options): Edit
    requires Enabled(st, a, o)
  {
    match a
    case CompactMemTable(level, number) =>
      if st.imm.value == [] || !Sorted(st.imm.value) then Edit({}, [])
      else FlushEdit(level, Table(number, o.builtSize(st.imm.value), st.imm.value))
    case TrivialMove(level, f) => MoveEdit(level, f)
    case Compact(level, inputs0, inputs1, _, _, outputs) => CompactionEdit(level, inputs0, inputs1, outputs)
    case _ => Edit({}, [])
  }

  lemma {:induction false} NothingEdited(levels: Levels)
    requires AllInOrder(levels)
    ensures Edited(levels, Edit({}, [])) == levels
    ensures forall l | 0 <= l < NUM_LEVELS :: AddsFresh([], Edit({}, []), l)
  {
    hide Edited, InOrder;
    forall l | 0 <= l < NUM_LEVELS ensures Edited(levels, Edit({}, []))[l] == levels[l] {
      UntouchedLevel(levels, Edit({}, []), l);
    }
  }

  lemma {:induction false} FlushTold(edits: seq<Edit>, st: State, level: nat, number: nat, o: Options)
    requires Inv(st) && Enabled(st, CompactMemTable(level, number), o) && Told(edits, st.levels, st.nextFile)
    ensures var a, after := CompactMemTable(level, number), After(st, CompactMemTable(level, number), o);
            Told(edits + [EditOf(st, a, o)], after.levels, after.nextFile)
  {
    hide VersionOk, Edited, NoOverlap, MayGoDown, Told, InOrder, IsFlushLevel, AgesOk, SequencesOk, FilesOk, BringsNew,
        AddsFresh;
    var a := CompactMemTable(level, number);
    var e := EditOf(st, a, o);
    InOrderOf(st.levels, st.nextFile);
    if st.imm.value == [] {
      NothingEdited(st.levels);
      NothingBrought(st.levels, st.nextFile, number + 1);
      OneMoreTold(edits, st.levels, st.nextFile, e, number + 1, 0);
    } else {
      var f: File := Table(number, o.builtSize(st.imm.value), st.imm.value);
      FlushedLevels(st.levels, st.nextFile, level, f);
      FlushedFilesOk(st.levels, Edited(st.levels, e), st.nextFile, level, f);
      InOrderOf(Edited(st.levels, e), number + 1);
      FlushBrings(st.levels, st.nextFile, level, f);
      OneMoreTold(edits, st.levels, st.nextFile, e, number + 1, level);
    }
  }

  lemma {:induction false} NothingBrought(levels: Levels, nextFile: nat, nextFile': nat)
    requires nextFile <= nextFile'
    ensures BringsNew(levels, nextFile, Edit({}, []), levels, nextFile', 0)
  {
  }

  lemma {:induction false} FlushBrings(levels: Levels, nextFile: nat, level: nat, f: File)
    requires level < NUM_LEVELS && FilesOk(levels, nextFile) && f.number >= nextFile
    ensures BringsNew(levels, nextFile, FlushEdit(level, f), Edited(levels, FlushEdit(level, f)), f.number + 1, level)
    ensures forall l | 0 <= l < NUM_LEVELS :: AddsFresh([], FlushEdit(level, f), l)
  {
    hide Edited, InOrder, FilesOk;
    FlushedLevels(levels, nextFile, level, f);
  }

  lemma {:induction false} InOrderOf(levels: Levels, nextFile: nat)
    requires FilesOk(levels, nextFile)
    ensures AllInOrder(levels)
  {
    hide InOrder;
  }

  lemma {:induction false} MoveTold(edits: seq<Edit>, st: State, level: nat, f: File, o: Options)
    requires Inv(st) && Enabled(st, TrivialMove(level, f), o) && Told(edits, st.levels, st.nextFile)
    ensures var a, after := TrivialMove(level, f), After(st, TrivialMove(level, f), o);
            Told(edits + [EditOf(st, a, o)], after.levels, after.nextFile)
  {
    hide VersionOk, Edited, Told, InOrder, AgesOk, SequencesOk, InputsOk, FilesOk, Replaced;
    var e := MoveEdit(level, f);
    MovedVersion(st.levels, st.nextFile, level, f);
    InOrderOf(Edited(st.levels, e), st.nextFile);
    MoveBrings(st.levels, st.nextFile, level, f);
    OneMoreTold(edits, st.levels, st.nextFile, e, st.nextFile, level + 1);
  }

  lemma {:induction false} MoveBrings(levels: Levels, nextFile: nat, level: nat, f: File)
    requires level + 1 < NUM_LEVELS && InputsOk(levels, level, [f], []) && FilesOk(levels, nextFile)
    requires Replaced(levels, Edited(levels, MoveEdit(level, f)), level, [f], [], [f])
    ensures BringsNew(levels, nextFile, MoveEdit(level, f), Edited(levels, MoveEdit(level, f)), nextFile, level + 1)
    ensures forall l | 0 <= l < NUM_LEVELS :: AddsFresh([], MoveEdit(level, f), l)
  {
    hide Edited, InOrder, Overlapping, LeftBehindIsNewer, MinUser, MaxUser;
    assert f in [f] && f in levels[level];
  }

  lemma {:induction false} CompactTold(edits: seq<Edit>, st: State, a: Action, o: Options)
    requires Inv(st) && Enabled(st, a, o) && a.Compact? && Told(edits, st.levels, st.nextFile)
    ensures Told(edits + [EditOf(st, a, o)], After(st, a, o).levels, After(st, a, o).nextFile)
  {
    hide VersionOk, Edited, Told, InOrder, AgesOk, SequencesOk, InputsOk, FilesOk, Replaced, IsInput, Written,
        Survivors, FreshNumbers, NextNumber;
    var e := CompactionEdit(a.level, a.inputs0, a.inputs1, a.outputs);
    var next := NextNumber(a.outputs, st.nextFile);
    CompactionWrites(st, a.level, a.inputs0, a.inputs1, a.oldest, a.input, a.outputs, o);
    CompactedVersion(st.levels, st.nextFile, a.level, a.inputs0, a.inputs1, a.outputs);
    InOrderOf(Edited(st.levels, e), next);
    CompactBrings(st.levels, st.nextFile, a.level, a.inputs0, a.inputs1, a.outputs);
    OneMoreTold(edits, st.levels, st.nextFile, e, next, a.level + 1);
  }

  lemma {:induction false} CompactBrings(levels: Levels, nextFile: nat, level: nat, in0: seq<File>, in1: seq<File>,
      outs: seq<File>)
    requires level + 1 < NUM_LEVELS && InputsOk(levels, level, in0, in1) && FilesOk(levels, nextFile)
        && FreshNumbers(outs, nextFile)
    requires Replaced(levels, Edited(levels, CompactionEdit(level, in0, in1, outs)), level, in0, in1, outs)
    ensures var e := CompactionEdit(level, in0, in1, outs);
            && BringsNew(levels, nextFile, e, Edited(levels, e), NextNumber(outs, nextFile), level + 1)
            && forall l | 0 <= l < NUM_LEVELS :: AddsFresh([], e, l)
  {
    hide Edited, InOrder, Overlapping, LeftBehindIsNewer, MinUser, MaxUser, CompactionEdit, InputsOk, FilesOk,
        AddsFresh;
    var e := CompactionEdit(level, in0, in1, outs);
    CompactionAdds(level, in0, in1, outs);
    DeletedAreOld(levels, nextFile, level, in0, in1, outs);
  }

  lemma {:induction false} DeletedAreOld(levels: Levels, nextFile: nat, level: nat, in0: seq<File>, in1: seq<File>,
      outs: seq<File>)
    requires level + 1 < NUM_LEVELS && InputsOk(levels, level, in0, in1) && FilesOk(levels, nextFile)
        && FreshNumbers(outs, nextFile)
    ensures var e := CompactionEdit(level, in0, in1, outs); forall l | 0 <= l < NUM_LEVELS :: AddsFresh([], e, l)
  {
    hide InOrder, Overlapping, LeftBehindIsNewer, MinUser, MaxUser;
    LowerInputsAreFiles(levels, level, in0, in1);
    var e := CompactionEdit(level, in0, in1, outs);
    forall d | d in e.deleted ensures d.1 < nextFile {
      var f :| (f in in0 || f in in1) && f.number == d.1;
      assert f in in0 ==> f in levels[level];
    }
  }

  /** Each step that logs an edit keeps the manifest faithful. */
  lemma {:induction false} StepTold(edits: seq<Edit>, st: State, a: Action, o: Options)
    requires Inv(st) && Enabled(st, a, o) && Told(edits, st.levels, st.nextFile)
    ensures var after := After(st, a, o);
            if LogsEdit(a) then Told(edits + [EditOf(st, a, o)], after.levels, after.nextFile)
            else after.levels == st.levels && after.nextFile == st.nextFile
  {
    hide Inv, Told, EditOf;
    match a
    case CompactMemTable(level, number) => FlushTold(edits, st, level, number, o);
    case TrivialMove(level, f) => MoveTold(edits, st, level, f, o);
    case Compact(_, _, _, _, _, _) => CompactTold(edits, st, a, o);
    case _ =>
  }

  // ---------- Runs ----------

  /** A run from any state. */
  ghost predicate IsRunFrom(states: seq<State>, actions: seq<Action>, o: Options) {
    && |states| == |actions| + 1
    && forall i | 0 <= i < |actions| ::
        Enabled(states[i], actions[i], o) && states[i + 1] == After(states[i], actions[i], o)
  }

  /** The manifest's edits after n steps: a snapshot of the first version, and what the steps logged. */
  ghost function EditsOf(states: seq<State>, actions: seq<Action>, o: Options, n: nat): seq<Edit>
    requires IsRunFrom(states, actions, o) && n <= |actions|
  {
    if n == 0 then [Edit({}, SnapshotAdds(states[0].levels, NUM_LEVELS))]
    else
      EditsOf(states, actions, o, n - 1) + if LogsEdit(actions[n - 1]) then [EditOf(states[n - 1], actions[n - 1], o)]
          else []
  }

  lemma {:induction false} SnapshotTold(levels: Levels, nextFile: nat)
    requires FilesOk(levels, nextFile)
    ensures Told([Edit({}, SnapshotAdds(levels, NUM_LEVELS))], levels, nextFile)
  {
    hide InOrder, EditedAll, Edited;
    var e := Edit({}, SnapshotAdds(levels, NUM_LEVELS));
    SnapshotAddsAll(levels, NUM_LEVELS);
    SnapshotFresh(levels, nextFile);
    assert [e][0] == e;
    assert Files([Snapshot(levels, [])]) == [e];
    InOrderOf(levels, nextFile);
    hide SnapshotAdds;
    SnapshotRebuilds(levels, []);
  }

  ghost predicate DistinctAdds(adds: seq<(nat, File)>) {
    forall i, j | 0 <= i < j < |adds| :: adds[i].1.number != adds[j].1.number
  }

  lemma {:induction false} SnapshotFresh(levels: Levels, nextFile: nat)
    requires FilesOk(levels, nextFile)
    ensures AllFresh([Edit({}, SnapshotAdds(levels, NUM_LEVELS))])
  {
    hide InOrder;
    var e := Edit({}, SnapshotAdds(levels, NUM_LEVELS));
    SnapshotDistinct(levels, nextFile, NUM_LEVELS);
    var adds := SnapshotAdds(levels, NUM_LEVELS);
    hide SnapshotAdds;
    forall l | 0 <= l < NUM_LEVELS ensures NumbersFresh([], [e], l) {
      assert e.added == adds && e.deleted == {};
      assert AddsFresh([], e, l);
    }
  }

  lemma {:induction false} SnapshotDistinct(levels: Levels, nextFile: nat, n: nat)
    requires FilesOk(levels, nextFile) && n <= NUM_LEVELS
    ensures DistinctAdds(SnapshotAdds(levels, n))
  {
    hide FilesOk, DistinctAdds, DistinctNumbers;
    NothingAdded();
    if n > 0 {
      SnapshotDistinct(levels, nextFile, n - 1);
      SnapshotAddsAll(levels, n - 1);
      NumbersDistinctInLevel(levels, nextFile, n - 1);
      ApartFromLevel(levels, nextFile, SnapshotAdds(levels, n - 1), n - 1);
      LevelAdded(SnapshotAdds(levels, n - 1), levels[n - 1], n - 1);
    }
  }

  lemma {:induction false} NothingAdded()
    ensures DistinctAdds([])
  {
  }

  lemma {:induction false} ApartFromLevel(levels: Levels, nextFile: nat, adds: seq<(nat, File)>, n: nat)
    requires FilesOk(levels, nextFile) && n < NUM_LEVELS
        && forall l: nat, f :: (l, f) in adds <==> l < n && f in levels[l]
    ensures forall a, f | a in adds && f in levels[n] :: a.1.number != f.number
  {
    hide InOrder;
    forall a, f | a in adds && f in levels[n] ensures a.1.number != f.number {
      assert (a.0, a.1) in adds;
    }
  }

  lemma {:induction false} LevelAdded(front: seq<(nat, File)>, files: seq<File>, n: nat)
    requires DistinctAdds(front) && DistinctNumbers(files)
        && forall a, f | a in front && f in files :: a.1.number != f.number
    ensures DistinctAdds(front + AtLevel(files, n))
  {
    var adds := front + AtLevel(files, n);
    forall i, j | 0 <= i < j < |adds| ensures adds[i].1.number != adds[j].1.number {
      assert i < |front| ==> adds[i] == front[i] && front[i] in front;
      assert j >= |front| ==> adds[j].1 == files[j - |front|] && files[j - |front|] in files;
    }
  }

  /** Along any run, from any state that the store can be in, the manifest stays faithful. */
  lemma {:induction false} RunTold(states: seq<State>, actions: seq<Action>, o: Options, n: nat)
    requires IsRunFrom(states, actions, o) && Inv(states[0]) && n <= |actions|
    ensures Inv(states[n]) && Told(EditsOf(states, actions, o, n), states[n].levels, states[n].nextFile)
  {
    hide Inv, Told, EditOf, Enabled, After;
    if n == 0 {
      FilesOfInv(states[0]);
      SnapshotTold(states[0].levels, states[0].nextFile);
    } else {
      RunTold(states, actions, o, n - 1);
      StepKeepsInv(states[n - 1], actions[n - 1], o);
      StepTold(EditsOf(states, actions, o, n - 1), states[n - 1], actions[n - 1], o);
      assert LogsEdit(actions[n - 1]) || EditsOf(states, actions, o, n) == EditsOf(states, actions, o, n - 1);
    }
  }

  lemma {:induction false} FilesOfInv(st: State)
    requires Inv(st)
    ensures FilesOk(st.levels, st.nextFile)
  {
  }

  /** No file number is ever added twice at a level, and the edits lead to the current version. */
  lemma {:induction false} NumbersStayFresh(states: seq<State>, actions: seq<Action>, o: Options, n: nat)
    requires IsRunFrom(states, actions, o) && Inv(states[0]) && n <= |actions|
    ensures AllFresh(EditsOf(states, actions, o, n))
        && states[n].levels == EditedAll(NO_FILES, EditsOf(states, actions, o, n))
  {
    hide Inv, AllFresh, EditedAll, AllInOrder, Past, EditsOf, IsRunFrom;
    RunTold(states, actions, o, n);
  }
}
