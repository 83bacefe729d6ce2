/** The manifest: edits are logged one by one, and replayed into one builder. */
module Manifests {
  import opened Format
  import opened Versions
  import opened VersionBuilder

  // ---------- Many edits, one builder ----------

  function Applied(st: LevelState, edits: seq<Edit>, level: nat): LevelState {
    if edits == [] then st else ApplyAt(Applied(st, edits[..|edits| - 1], level), edits[|edits| - 1], level)
  }

  /** The version after one edit at a time. */
  function EditedAll(levels: Levels, edits: seq<Edit>): Levels {
    if edits == [] then levels else Edited(EditedAll(levels, edits[..|edits| - 1]), edits[|edits| - 1])
  }

  ghost function NumbersAt(adds: seq<(nat, File)>, level: nat): set<nat> {
    set a | a in adds && a.0 == level :: a.1.number
  }

  /** No file number is added twice at a level, or added there while it is in use or being deleted. */
  ghost predicate NumbersFresh(base: seq<File>, edits: seq<Edit>, level: nat) {
    && (forall k | 0 <= k < |edits| :: AddsFresh(base, edits[k], level))
    && forall j, k | 0 <= j < k < |edits| :: NumbersAt(edits[j].added, level) !! NumbersAt(edits[k].added, level)
  }

  ghost predicate NewTo(files: seq<File>, adds: seq<(nat, File)>, level: nat) {
    && (forall g | g in files :: g.number !in NumbersAt(adds, level))
    && forall i, j | 0 <= i < j < |adds| && adds[i].0 == level == adds[j].0 :: adds[i].1.number != adds[j].1.number
  }

  lemma {:induction false} NumbersAtSnoc(adds: seq<(nat, File)>, last: (nat, File), level: nat)
    ensures NumbersAt(adds + [last], level) == NumbersAt(adds, level) + if last.0 == level then {last.1.number} else {}
  {
  }

  /** Adding files with new numbers to a builder that has been at work already. */
  lemma {:induction false} AddAllTo(st: LevelState, adds: seq<(nat, File)>, level: nat)
    requires InOrder(st.added) && NewTo(st.added, adds, level)
    ensures var r := AddAll(st, adds, level);
            && InOrder(r.added) && r.deleted == st.deleted - NumbersAt(adds, level)
            && (forall f :: f in r.added <==> f in st.added || (level, f) in adds)
    decreases |adds|
  {
    hide InOrder;
    if adds != [] {
      var n := |adds| - 1;
      var front, last := adds[..n], adds[n];
      assert adds == front + [last];
      NumbersAtSnoc(front, last, level);
      AddAllTo(st, front, level);
      var before := AddAll(st, front, level);
      if last.0 == level {
        forall g | g in before.added ensures g.number != last.1.number {
          if (level, g) in front {
            var i :| 0 <= i < |front| && front[i] == (level, g);
            assert adds[i] == (level, g);
          } else {
            assert last.1.number in NumbersAt(adds, level);
          }
        }
        InsertedFile(before.added, last.1);
      }
    }
  }

  lemma {:induction false} InsertedFile(files: seq<File>, f: File)
    requires forall g | g in files :: g.number != f.number
    ensures forall g :: g in InsertFile(files, f) <==> g in files || g == f
    ensures InOrder(files) ==> InOrder(InsertFile(files, f))
  {
    hide InOrder;
  }

  /** What some edits have done to a builder. */
  ghost predicate Tracks(base: seq<File>, st: LevelState, edits: seq<Edit>, level: nat, files: seq<File>) {
    && InOrder(st.added) && InOrder(files)
    && (forall f | f in st.added :: exists k :: 0 <= k < |edits| && f.number in NumbersAt(edits[k].added, level))
    && forall f :: f in files <==> (f in base || f in st.added) && f.number !in st.deleted
  }

  /** One more edit does the same to the builder as to the version. */
  lemma {:induction false} ApplyTracks(base: seq<File>, st: LevelState, edits: seq<Edit>, level: nat, files: seq<File>,
      e: Edit)
    requires Tracks(base, st, edits, level, files) && NumbersFresh(base, edits + [e], level)
    ensures Tracks(base, ApplyAt(st, e, level), edits + [e], level, SaveAt(files, ApplyAt(UNTOUCHED, e, level)))
  {
    hide InOrder, AddAll, SaveAt;
    var all := edits + [e];
    assert all[|edits|] == e;
    var st0 := LevelState(st.deleted + Deletions(e, level), st.added);
    forall f | f in st.added ensures f.number !in NumbersAt(e.added, level) {
      var k :| 0 <= k < |edits| && f.number in NumbersAt(edits[k].added, level);
      assert all[k] == edits[k];
    }
    AddAllTo(st0, e.added, level);
    FreshForVersion(base, st, files, level, e);
    EditedLevel(files, e, level);
    var st' := ApplyAt(st, e, level);
    forall f | f in st'.added ensures exists k :: 0 <= k < |all| && f.number in NumbersAt(all[k].added, level) {
      if (level, f) in e.added {
        assert f.number in NumbersAt(all[|edits|].added, level);
      } else {
        var k :| 0 <= k < |edits| && f.number in NumbersAt(edits[k].added, level);
        assert all[k] == edits[k];
      }
    }
    forall f ensures f in SaveAt(files, ApplyAt(UNTOUCHED, e, level))
        <==> (f in base || f in st'.added) && f.number !in st'.deleted {
      FileAfterEdit(base, st, files, level, e, f);
    }
  }

  lemma {:induction false} FreshForVersion(base: seq<File>, st: LevelState, files: seq<File>, level: nat, e: Edit)
    requires AddsFresh(base, e, level) && forall f | f in files :: f in base || f in st.added
    requires forall f | f in st.added :: f.number !in NumbersAt(e.added, level)
    ensures AddsFresh(files, e, level)
  {
    forall i, f | 0 <= i < |e.added| && e.added[i].0 == level && f in files ensures f.number != e.added[i].1.number {
      assert e.added[i].1.number in NumbersAt(e.added, level);
    }
  }

  lemma {:induction false} FileAfterEdit(base: seq<File>, st: LevelState, files: seq<File>, level: nat, e: Edit,
      f: File)
    requires AddsFresh(base, e, level) && forall g | g in st.added :: g.number !in NumbersAt(e.added, level)
    requires f in files <==> (f in base || f in st.added) && f.number !in st.deleted
    ensures (f in files && (level, f.number) !in e.deleted) || (level, f) in e.added
        <==> (f in base || f in st.added || (level, f) in e.added)
             && f.number !in st.deleted + Deletions(e, level) - NumbersAt(e.added, level)
  {
    assert f.number in Deletions(e, level) <==> (level, f.number) in e.deleted;
    BaseNumbersOld(base, e, level);
    assert (level, f) in e.added ==> f.number in NumbersAt(e.added, level);
  }

  lemma {:induction false} BaseNumbersOld(base: seq<File>, e: Edit, level: nat)
    requires AddsFresh(base, e, level)
    ensures forall f | f in base :: f.number !in NumbersAt(e.added, level)
  {
    forall f, a | f in base && a in e.added && a.0 == level ensures f.number != a.1.number {
      var i :| 0 <= i < |e.added| && e.added[i] == a;
    }
  }

  lemma {:induction false} FreshFront(base: seq<File>, edits: seq<Edit>, level: nat)
    requires NumbersFresh(base, edits, level) && edits != []
    ensures NumbersFresh(base, edits[..|edits| - 1], level)
  {
  }

  lemma {:induction false} AppliedTracks(base: Levels, edits: seq<Edit>, level: nat)
    requires level < NUM_LEVELS && InOrder(base[level]) && NumbersFresh(base[level], edits, level)
    ensures Tracks(base[level], Applied(UNTOUCHED, edits, level), edits, level, EditedAll(base, edits)[level])
    decreases |edits|
  {
    hide InOrder, Tracks, NumbersFresh, ApplyAt, SaveAt;
    if edits == [] {
      NothingTracks(base[level], level);
    } else {
      var n := |edits| - 1;
      var front := edits[..n];
      assert edits == front + [edits[n]];
      FreshFront(base[level], edits, level);
      AppliedTracks(base, front, level);
      ApplyTracks(base[level], Applied(UNTOUCHED, front, level), front, level, EditedAll(base, front)[level], edits[n]);
    }
  }

  lemma {:induction false} NothingTracks(base: seq<File>, level: nat)
    requires InOrder(base)
    ensures Tracks(base, UNTOUCHED, [], level, base)
  {
    hide InOrder;
    assert InOrder([]) by { EmptyInOrder(); }
  }

  lemma {:induction false} EmptyInOrder()
    ensures InOrder([])
  {
  }

  /** One builder over many edits saves the same version as one edit at a time. */
  lemma {:induction false} OneBuilderSuffices(base: Levels, edits: seq<Edit>, level: nat)
    requires level < NUM_LEVELS && InOrder(base[level]) && NumbersFresh(base[level], edits, level)
    ensures SaveAt(base[level], Applied(UNTOUCHED, edits, level)) == EditedAll(base, edits)[level]
    ensures InOrder(EditedAll(base, edits)[level])
  {
    hide InOrder, NumbersFresh, SaveAt, ApplyAt, Applied;
    var st, files := Applied(UNTOUCHED, edits, level), EditedAll(base, edits)[level];
    AppliedTracks(base, edits, level);
    assert NoSharedNumber(base[level], st.added) by {
      AddedAreNew(base[level], st, edits, level, files);
    }
    SaveHolds(base[level], st);
    InOrderIsCanonical(SaveAt(base[level], st), files);
  }

  lemma {:induction false} AddedAreNew(base: seq<File>, st: LevelState, edits: seq<Edit>, level: nat, files: seq<File>)
    requires Tracks(base, st, edits, level, files) && NumbersFresh(base, edits, level)
    ensures NoSharedNumber(base, st.added)
  {
    hide InOrder;
    forall f, g | f in base && g in st.added ensures f.number != g.number {
      var k :| 0 <= k < |edits| && g.number in NumbersAt(edits[k].added, level);
      BaseNumbersOld(base, edits[k], level);
    }
  }

  // ---------- A number added twice ----------

  const OLD: File := Table(1, 0, [Entry(InternalKey(2.0, 1, Put), [])])
  const NEW: File := Table(1, 0, [Entry(InternalKey(1.0, 2, Put), [])])
  const TWICE: seq<Edit> := [Edit({}, [(1, OLD)]), Edit({(1, 1)}, []), Edit({}, [(1, NEW)])]

  /** The hypothesis is needed: when a deleted number is added again, one builder brings back the
      deleted file too. */
  lemma {:induction false} NumberAddedTwice()
    ensures OLD !in EditedAll([[], [], [], [], [], [], []], TWICE)[1]
    ensures OLD in SaveAt([], Applied(UNTOUCHED, TWICE, 1))
  {
    TwiceEditByEdit();
    TwiceInOneBuilder();
    hide EditedAll, SaveAt, Applied;
    assert OLD in [NEW, OLD] && OLD !in [NEW];
  }

  lemma {:induction false} TwiceEditByEdit()
    ensures EditedAll([[], [], [], [], [], [], []], TWICE)[1] == [NEW]
  {
    hide EditedAll, SaveAt, ApplyAt, Edited;
    var add, delete, again := TWICE[0], TWICE[1], TWICE[2];
    assert TWICE == [add, delete, again];
    StatesOfTwice(add, delete, again);
    ThreeEdits([[], [], [], [], [], [], []], add, delete, again);
  }

  lemma {:induction false} ThreeEdits(levels: Levels, a: Edit, b: Edit, c: Edit)
    ensures EditedAll(levels, [a, b, c])[1]
         == SaveAt(SaveAt(SaveAt(levels[1], ApplyAt(UNTOUCHED, a, 1)), ApplyAt(UNTOUCHED, b, 1)),
             ApplyAt(UNTOUCHED, c, 1))
  {
    hide ApplyAt, SaveAt, EditedAll, Edited;
    EditedAllSnoc(levels, [], a);
    EditedAllSnoc(levels, [a], b);
    EditedAllSnoc(levels, [a, b], c);
    EditedAt(levels, a, 1);
    EditedAt(Edited(levels, a), b, 1);
    EditedAt(Edited(Edited(levels, a), b), c, 1);
    assert [] + [a] == [a] && [a] + [b] == [a, b] && [a, b] + [c] == [a, b, c];
  }

  lemma {:induction false} EditedAt(levels: Levels, e: Edit, level: nat)
    requires level < NUM_LEVELS
    ensures Edited(levels, e)[level] == SaveAt(levels[level], ApplyAt(UNTOUCHED, e, level))
  {
    hide SaveAt, ApplyAt;
  }

  lemma {:induction false} EditedAllSnoc(levels: Levels, edits: seq<Edit>, e: Edit)
    ensures EditedAll(levels, edits + [e]) == Edited(EditedAll(levels, edits), e) && EditedAll(levels, []) == levels
  {
    assert (edits + [e])[..|edits|] == edits;
  }

  lemma {:induction false} TwiceInOneBuilder()
    ensures SaveAt([], Applied(UNTOUCHED, TWICE, 1)) == [NEW, OLD]
  {
    hide ApplyAt, SaveAt;
    var add, delete, again := TWICE[0], TWICE[1], TWICE[2];
    StatesOfTwice(add, delete, again);
    assert TWICE[..2] == [add, delete] && [add, delete][..1] == [add] && [add][..0] == [];
    assert Applied(UNTOUCHED, [add], 1) == LevelState({}, [OLD]);
    assert Applied(UNTOUCHED, [add, delete], 1) == LevelState({1}, [OLD]);
  }

  lemma {:induction false} StatesOfTwice(add: Edit, delete: Edit, again: Edit)
    requires [add, delete, again] == TWICE
    ensures ApplyAt(UNTOUCHED, add, 1) == LevelState({}, [OLD])
    ensures ApplyAt(UNTOUCHED, delete, 1) == LevelState({1}, [])
    ensures ApplyAt(UNTOUCHED, again, 1) == LevelState({}, [NEW])
    ensures ApplyAt(LevelState({}, [OLD]), delete, 1) == LevelState({1}, [OLD])
    ensures ApplyAt(LevelState({1}, [OLD]), again, 1) == LevelState({}, [NEW, OLD])
    ensures SaveAt([], LevelState({}, [OLD])) == [OLD] && SaveAt([OLD], LevelState({1}, [])) == []
    ensures SaveAt([], LevelState({}, [NEW])) == [NEW] && SaveAt([], LevelState({}, [NEW, OLD])) == [NEW, OLD]
  {
    assert add == TWICE[0] && delete == TWICE[1] && again == TWICE[2];
    assert Deletions(delete, 1) == {1} by { assert (1, 1) in delete.deleted; }
    assert Deletions(add, 1) == {} && Deletions(again, 1) == {};
    assert {} - {1} == {} && {1} - {1} == {} && {} + {1} == {1};
    OneAdd(UNTOUCHED, OLD, add);
    OneAdd(UNTOUCHED, NEW, again);
    OneAdd(LevelState({1}, [OLD]), NEW, again);
    LiveOne(OLD, {});
    LiveOne(OLD, {1});
    LiveOne(NEW, {});
    assert Live([NEW, OLD], {}) == [NEW] + Live([OLD], {}) by {
      assert [NEW, OLD][1..] == [OLD];
    }
  }

  lemma {:induction false} OneAdd(st: LevelState, f: File, e: Edit)
    requires e.added == [(1, f)] && Deletions(e, 1) == {}
    ensures ApplyAt(st, e, 1) == LevelState(st.deleted - {f.number}, InsertFile(st.added, f))
  {
    assert e.added[..0] == [] && |e.added| == 1;
    assert st.deleted + Deletions(e, 1) == st.deleted;
    assert AddAll(st, [], 1) == st;
  }

  lemma {:induction false} LiveOne(f: File, deleted: set<nat>)
    ensures Live([f], deleted) == if f.number in deleted then [] else [f]
  {
    assert [f][1..] == [];
  }

  // ---------- The version set ----------

  /** An edit as logged: changes to files, and bookkeeping. */
  datatype VersionEdit = VersionEdit(
    comparator: Option<Bytes>,
    logNumber: Option<nat>,
    prevLogNumber: Option<nat>,
    nextFile: Option<nat>,
    lastSequence: Option<SequenceNumber>,
    files: Edit
  )

  /** What recovery starts from. The next manifest takes the next file number. */
  datatype Recovered = Recovered(
    levels: Levels, logNumber: nat, prevLogNumber: nat, manifestFile: nat, nextFile: nat, lastSequence: SequenceNumber)

  function Files(records: seq<VersionEdit>): seq<Edit> {
    seq(|records|, i requires 0 <= i < |records| => records[i].files)
  }

  function LogNumberOf(r: VersionEdit): Option<nat> { r.logNumber }

  function PrevLogNumberOf(r: VersionEdit): Option<nat> { r.prevLogNumber }

  function NextFileOf(r: VersionEdit): Option<nat> { r.nextFile }

  function LastSequenceOf(r: VersionEdit): Option<SequenceNumber> { r.lastSequence }

  /** The last record that sets a field decides. */
  function LastSet<T>(records: seq<VersionEdit>, field: VersionEdit -> Option<T>): Option<T> {
    if records == [] then None
    else if field(records[|records| - 1]).Some? then field(records[|records| - 1])
    else LastSet(records[..|records| - 1], field)
  }

  predicate NamesMatch(records: seq<VersionEdit>, name: Bytes) {
    forall i | 0 <= i < |records| :: records[i].comparator.None? || records[i].comparator == Some(name)
  }

  /** One builder over all records, from nothing. */
  function Rebuilt(records: seq<VersionEdit>): Levels {
    seq(NUM_LEVELS, l requires 0 <= l < NUM_LEVELS => SaveAt([], Applied(UNTOUCHED, Files(records), l)))
  }

  /** What a manifest says. Keys must have been ordered by the comparator of this name, and some
      record must set the next file number, the log number and the last sequence number. */
  function Replay(records: seq<VersionEdit>, name: Bytes): Result<Recovered> {
    var log, prev := LastSet(records, LogNumberOf), LastSet(records, PrevLogNumberOf);
    var next, last := LastSet(records, NextFileOf), LastSet(records, LastSequenceOf);
    if !NamesMatch(records, name) then Err(InvalidArgument("does not match existing comparator"))
    else if next.None? then Err(Corruption("no meta-nextfile entry in descriptor"))
    else if log.None? then Err(Corruption("no meta-lognumber entry in descriptor"))
    else if last.None? then Err(Corruption("no last-sequence-number entry in descriptor"))
    else
      Ok(Recovered(Rebuilt(records), log.value, if prev.Some? then prev.value else 0,
                   next.value, next.value + 1, last.value))
  }

  /** All files of a version, as additions. */
  function SnapshotAdds(levels: Levels, n: nat): seq<(nat, File)>
    requires n <= NUM_LEVELS
  {
    if n == 0 then []
    else SnapshotAdds(levels, n - 1) + AtLevel(levels[n - 1], n - 1)
  }

  function AtLevel(files: seq<File>, level: nat): seq<(nat, File)> {
    seq(|files|, i requires 0 <= i < |files| => (level, files[i]))
  }

  function Snapshot(levels: Levels, name: Bytes): VersionEdit {
    VersionEdit(Some(name), None, None, None, None, Edit({}, SnapshotAdds(levels, NUM_LEVELS)))
  }

  ghost predicate AllFresh(edits: seq<Edit>) {
    forall l | 0 <= l < NUM_LEVELS :: NumbersFresh([], edits, l)
  }

  ghost predicate AllInOrder(levels: Levels) {
    forall l | 0 <= l < NUM_LEVELS :: InOrder(levels[l])
  }

  /** The manifest, while no file number is added twice at a level, tells of the version edit by edit. */
  ghost predicate TellsOf(records: seq<VersionEdit>, current: Levels) {
    AllFresh(Files(records)) ==> AllInOrder(current) && current == EditedAll(NO_FILES, Files(records))
  }

  class VersionSet {
    const comparator: Bytes
    var current: Levels
    var logNumber: nat
    var prevLogNumber: nat
    var nextFile: nat
    var lastSequence: SequenceNumber
    var descriptor: Option<seq<VersionEdit>>    // the records of the manifest, once it is open

    ghost predicate Valid()
      reads this
    {
      if descriptor.Some? then TellsOf(descriptor.value, current) else AllInOrder(current)
    }

    constructor (comparator: Bytes, current: Levels, logNumber: nat, prevLogNumber: nat, nextFile: nat,
        lastSequence: SequenceNumber)
      requires AllInOrder(current)
      ensures Valid() && descriptor == None && this.current == current && this.comparator == comparator
      ensures this.logNumber == logNumber && this.prevLogNumber == prevLogNumber && this.nextFile == nextFile
          && this.lastSequence == lastSequence
    {
      this.comparator := comparator;
      this.current, this.logNumber, this.prevLogNumber, this.nextFile, this.lastSequence :=
        current, logNumber, prevLogNumber, nextFile, lastSequence;
      descriptor := None;
    }

    /** Complete an edit, log it, and install the version it leads to. The manifest then replays to
        that version, unless it adds a file number twice. */
    method LogAndApply(e: VersionEdit)
      requires Valid() && EditOk(e.files) && (e.logNumber.Some? ==> logNumber <= e.logNumber.value < nextFile)
      modifies this
      ensures Valid() && current == Edited(old(current), e.files)
      ensures logNumber == (if e.logNumber.Some? then e.logNumber.value else old(logNumber))
      ensures prevLogNumber == (if e.prevLogNumber.Some? then e.prevLogNumber.value else old(prevLogNumber))
      ensures nextFile == old(nextFile) && lastSequence == old(lastSequence)
      ensures descriptor == Some(Opened(old(descriptor), old(current), comparator)
                                 + [VersionEdit(e.comparator, Some(logNumber), Some(prevLogNumber), Some(nextFile),
                                     Some(lastSequence), e.files)])
      ensures AllFresh(Files(descriptor.value)) && NamesMatch(descriptor.value, comparator) ==>
                Replay(descriptor.value, comparator)
                    == Ok(Recovered(current, logNumber, prevLogNumber, nextFile, nextFile + 1, lastSequence))
    {
      hide EditedAll, Edited, InOrder, AllFresh, Replay, Snapshot, AllInOrder, NamesMatch;
      var log := if e.logNumber.Some? then e.logNumber.value else logNumber;
      var prev := if e.prevLogNumber.Some? then e.prevLogNumber.value else prevLogNumber;
      var record := VersionEdit(e.comparator, Some(log), Some(prev), Some(nextFile), Some(lastSequence), e.files);
      var v := ApplyEdit(current, e.files);
      var records := if descriptor.Some? then descriptor.value else [Snapshot(current, comparator)];
      assert records == Opened(descriptor, current, comparator);
      FreshBefore(records, record);
      if descriptor.None? && AllFresh(Files(records)) {
        SnapshotRebuilds(current, comparator);
      }
      if AllFresh(Files(records + [record])) {
        RecordRebuilds(records, current, record, comparator);
      }
      descriptor := Some(records + [record]);
      current, logNumber, prevLogNumber := v, log, prev;
    }
  }

  /** The manifest as the next edit finds it: a new one starts with a snapshot. */
  function Opened(descriptor: Option<seq<VersionEdit>>, current: Levels, name: Bytes): seq<VersionEdit> {
    if descriptor.Some? then descriptor.value else [Snapshot(current, name)]
  }

  lemma {:induction false} FreshBefore(records: seq<VersionEdit>, r: VersionEdit)
    ensures AllFresh(Files(records + [r])) ==> AllFresh(Files(records))
  {
    hide NumbersFresh;
    assert Files(records + [r]) == Files(records) + [r.files];
    assert (Files(records) + [r.files])[..|records|] == Files(records);
    forall l | 0 <= l < NUM_LEVELS && NumbersFresh([], Files(records + [r]), l)
        ensures NumbersFresh([], Files(records), l) {
      FreshFront([], Files(records + [r]), l);
    }
  }

  lemma {:induction false} SnapshotAddsAll(levels: Levels, n: nat)
    requires n <= NUM_LEVELS
    ensures forall l: nat, f :: (l, f) in SnapshotAdds(levels, n) <==> l < n && f in levels[l]
  {
    if n > 0 {
      SnapshotAddsAll(levels, n - 1);
      var files := levels[n - 1];
      var adds := AtLevel(files, n - 1);
      forall l: nat, f ensures (l, f) in adds <==> l == n - 1 && f in files {
        if l == n - 1 && f in files {
          var i :| 0 <= i < |files| && files[i] == f;
          assert adds[i] == (l, f);
        }
      }
    }
  }

  /** Replaying a snapshot gives the version that was saved. */
  lemma {:induction false} SnapshotRebuilds(levels: Levels, name: Bytes)
    requires AllInOrder(levels) && AllFresh(Files([Snapshot(levels, name)]))
    ensures EditedAll(NO_FILES, Files([Snapshot(levels, name)])) == levels
  {
    hide InOrder, SaveAt, ApplyAt;
    var e := Snapshot(levels, name).files;
    var edits := Files([Snapshot(levels, name)]);
    assert edits == [e] && edits[..0] == [];
    SnapshotAddsAll(levels, NUM_LEVELS);
    forall l | 0 <= l < NUM_LEVELS ensures Edited(NO_FILES, e)[l] == levels[l] {
      assert NumbersFresh([], edits, l) && edits[0] == e;
      assert AddsFresh([], e, l);
      assert InOrder([]) by { EmptyInOrder(); }
      EditedLevel([], e, l);
      InOrderIsCanonical(Edited(NO_FILES, e)[l], levels[l]);
    }
    assert Edited(NO_FILES, e) == levels;
  }

  lemma {:induction false} LastSetSnoc<T>(records: seq<VersionEdit>, r: VersionEdit, field: VersionEdit -> Option<T>)
    requires field(r).Some?
    ensures LastSet(records + [r], field) == field(r)
  {
  }

  /** A complete record makes the manifest tell of the version after it. */
  lemma {:induction false} RecordRebuilds(records: seq<VersionEdit>, current: Levels, r: VersionEdit, name: Bytes)
    requires current == EditedAll(NO_FILES, Files(records)) && AllFresh(Files(records + [r]))
    requires r.logNumber.Some? && r.prevLogNumber.Some? && r.nextFile.Some? && r.lastSequence.Some?
    ensures EditedAll(NO_FILES, Files(records + [r])) == Edited(current, r.files)
        && AllInOrder(Edited(current, r.files))
    ensures NamesMatch(records + [r], name) ==>
              Replay(records + [r], name)
              == Ok(Recovered(Edited(current, r.files), r.logNumber.value, r.prevLogNumber.value, r.nextFile.value,
                  r.nextFile.value + 1, r.lastSequence.value))
  {
    hide InOrder, NumbersFresh, SaveAt, Applied, Edited, NamesMatch;
    var all := records + [r];
    assert Files(all) == Files(records) + [r.files];
    assert Files(all)[..|all| - 1] == Files(records);
    LastSetSnoc(records, r, LogNumberOf);
    LastSetSnoc(records, r, PrevLogNumberOf);
    LastSetSnoc(records, r, NextFileOf);
    LastSetSnoc(records, r, LastSequenceOf);
    forall l | 0 <= l < NUM_LEVELS
      ensures SaveAt([], Applied(UNTOUCHED, Files(all), l)) == EditedAll(NO_FILES, Files(all))[l]
      ensures InOrder(EditedAll(NO_FILES, Files(all))[l])
    {
      assert InOrder([]) by { EmptyInOrder(); }
      OneBuilderSuffices(NO_FILES, Files(all), l);
    }
    assert Rebuilt(all) == EditedAll(NO_FILES, Files(all));
  }

  /** Replay a manifest record by record, up to the first with the wrong comparator. */
  method Recover(records: seq<VersionEdit>, name: Bytes) returns (r: Result<Recovered>)
    requires forall i | 0 <= i < |records| :: EditOk(records[i].files)
    ensures r == Replay(records, name)
  {
    hide SaveAt;
    var builder := new Builder(NO_FILES);
    var log: Option<nat>, prev: Option<nat>, next: Option<nat>, last: Option<SequenceNumber> := None, None, None, None;
    for i := 0 to |records|
      invariant builder.Valid() && builder.base == NO_FILES
      invariant NamesMatch(records[..i], name)
      invariant forall l | 0 <= l < NUM_LEVELS :: builder.levels[l] == Applied(UNTOUCHED, Files(records[..i]), l)
      invariant log == LastSet(records[..i], LogNumberOf) && prev == LastSet(records[..i], PrevLogNumberOf)
      invariant next == LastSet(records[..i], NextFileOf) && last == LastSet(records[..i], LastSequenceOf)
    {
      var e := records[i];
      if e.comparator.Some? && e.comparator.value != name {
        return Err(InvalidArgument("does not match existing comparator"));
      }
      assert records[..i + 1][..i] == records[..i];
      assert Files(records[..i + 1])[..i] == Files(records[..i]) && Files(records[..i + 1])[i] == e.files;
      builder.Apply(e.files);
      if e.logNumber.Some? { log := e.logNumber; }
      if e.prevLogNumber.Some? { prev := e.prevLogNumber; }
      if e.nextFile.Some? { next := e.nextFile; }
      if e.lastSequence.Some? { last := e.lastSequence; }
    }
    assert records[..|records|] == records;
    if next.None? {
      return Err(Corruption("no meta-nextfile entry in descriptor"));
    } else if log.None? {
      return Err(Corruption("no meta-lognumber entry in descriptor"));
    } else if last.None? {
      return Err(Corruption("no last-sequence-number entry in descriptor"));
    }
    if prev.None? {
      prev := Some(0);
    }
    var levels := builder.SaveTo();
    assert levels == Rebuilt(records);
    r := Ok(Recovered(levels, log.value, prev.value, next.value, next.value + 1, last.value));
  }
}
