/** The log-structured merge tree as a state machine: its state, its invariant and its steps. */
module Database {
  import opened Format
  import opened Versions
  import opened VersionBuilder
  import opened CompactionInputs
  import opened CompactionWork

  datatype State = State(
    mem: seq<Entry>,
    imm: Option<seq<Entry>>,
    levels: Levels,
    lastSequence: SequenceNumber,
    snapshots: seq<SequenceNumber>,
    nextFile: nat
  )

  datatype Options = Options(maxFileSize: nat, builtSize: seq<Entry> -> nat)

  /** An operation of a write batch. */
  datatype Op = PutOp(user: UserKey, value: Bytes) | DeleteOp(user: UserKey)

  ghost function ImmSet(st: State): set<Entry> {
    if st.imm.Some? then SetOf(st.imm.value) else {}
  }

  ghost function TableSet(st: State): set<Entry> {
    AllEntries(st.levels, 0)
  }

  ghost function All(st: State): set<Entry> {
    SetOf(st.mem) + ImmSet(st) + TableSet(st)
  }

  /** The oldest sequence number a reader may still ask for. */
  function SmallestSnapshot(st: State): SequenceNumber {
    if st.snapshots == [] then st.lastSequence else st.snapshots[0]
  }

  // ---------- The invariant ----------

  /** Levels are in order, and file numbers identify files across all levels. */
  ghost predicate FilesOk(levels: Levels, nextFile: nat) {
    && (forall l | 0 <= l < NUM_LEVELS :: InOrder(levels[l]))
    && (forall l, f | 0 <= l < NUM_LEVELS && f in levels[l] :: f.number < nextFile)
    && (forall l, m, f, g | 0 <= l < NUM_LEVELS && 0 <= m < NUM_LEVELS && f in levels[l] && g in levels[m]
                            && f.number == g.number :: l == m && f == g)
  }

  /** Reads go newest first: memtable, immutable memtable, level 0 by number, then by level. */
  ghost predicate AgesOk(st: State) {
    && Newer(SetOf(st.mem), ImmSet(st))
    && Newer(SetOf(st.mem), TableSet(st))
    && Newer(ImmSet(st), TableSet(st))
  }

  ghost predicate SequencesOk(st: State) {
    && st.lastSequence < MAX_SEQUENCE
    && (forall e | e in All(st) :: e.key.sequence <= st.lastSequence)
    && Distinct(All(st))
  }

  ghost predicate SnapshotsOk(st: State) {
    && (forall i, j :: 0 <= i < j < |st.snapshots| ==> st.snapshots[i] <= st.snapshots[j])
    && (forall i | 0 <= i < |st.snapshots| :: st.snapshots[i] <= st.lastSequence)
  }

  ghost predicate Inv(st: State) {
    && Sorted(st.mem) && (st.imm.Some? ==> Sorted(st.imm.value))
    && VersionOk(st.levels) && FilesOk(st.levels, st.nextFile)
    && AgesOk(st) && SequencesOk(st) && SnapshotsOk(st)
  }

  // ---------- Steps ----------

  function EntryOf(op: Op, sequence: SequenceNumber): Entry {
    match op
    case PutOp(u, v) => Entry(InternalKey(u, sequence, Put), v)
    case DeleteOp(u) => Entry(InternalKey(u, sequence, Deletion), [])
  }

  /** The memtable after a batch whose first operation gets sequence number `first`. */
  function InsertBatch(mem: seq<Entry>, ops: seq<Op>, first: nat): seq<Entry>
    requires first + |ops| <= MAX_SEQUENCE + 1
  {
    if ops == [] then mem
    else InsertEntry(InsertBatch(mem, ops[..|ops| - 1], first), EntryOf(ops[|ops| - 1], first + |ops| - 1))
  }

  ghost function BatchSet(ops: seq<Op>, first: nat): set<Entry>
    requires first + |ops| <= MAX_SEQUENCE + 1
  {
    set i | 0 <= i < |ops| :: EntryOf(ops[i], first + i)
  }

  datatype Action =
    | Write(ops: seq<Op>)
    | SwitchMemTable
    | CompactMemTable(level: nat, number: nat)
    | TrivialMove(from: nat, file: File)
    | Compact(level: nat, inputs0: seq<File>, inputs1: seq<File>, oldest: SequenceNumber, input: seq<Entry>,
        outputs: seq<File>)
    | GetSnapshot
    | ReleaseSnapshot(at: nat)

  function FlushEdit(level: nat, f: File): Edit {
    Edit({}, [(level, f)])
  }

  function MoveEdit(level: nat, f: File): Edit {
    Edit({(level, f.number)}, [(level + 1, f)])
  }

  function InputDeletions(level: nat, inputs: seq<File>): set<(nat, nat)> {
    set f | f in inputs :: (level, f.number)
  }

  function CompactionEdit(level: nat, inputs0: seq<File>, inputs1: seq<File>, outputs: seq<File>): Edit {
    Edit(InputDeletions(level, inputs0) + InputDeletions(level + 1, inputs1),
         seq(|outputs|, i requires 0 <= i < |outputs| => (level + 1, outputs[i])))
  }

  /** The merged input of a compaction: its files' entries in key order. */
  ghost predicate IsInput(input: seq<Entry>, files: seq<File>) {
    Sorted(input) && SetOf(input) == EntriesOf(files)
  }

  /** Files with new and growing numbers; other numbers may have been handed out in between. */
  ghost predicate FreshNumbers(files: seq<File>, nextFile: nat) {
    && (forall i | 0 <= i < |files| :: nextFile <= files[i].number)
    && forall i, j | 0 <= i < j < |files| :: files[i].number < files[j].number
  }

  function NextNumber(files: seq<File>, nextFile: nat): nat {
    if files == [] then nextFile else files[|files| - 1].number + 1
  }

  /** Is a step possible? A compaction may have begun long ago: it keeps what was visible at the
      oldest snapshot of then, while writes, switches and snapshots went on. */
  ghost predicate Enabled(st: State, a: Action, o: Options) {
    match a
    case Write(ops) => st.lastSequence + |ops| < MAX_SEQUENCE
    case SwitchMemTable => st.imm.None?
    case CompactMemTable(level, number) =>
      && st.imm.Some? && level < NUM_LEVELS && st.nextFile <= number
      && (st.imm.value != [] && Sorted(st.imm.value) ==>
            var f: File := Table(number, o.builtSize(st.imm.value), st.imm.value);
            IsFlushLevel(st.levels, Smallest(f).user, Largest(f).user, o.maxFileSize, level))
    case TrivialMove(level, f) =>
      level + 1 < NUM_LEVELS && InputsOk(st.levels, level, [f], [])
    case Compact(level, inputs0, inputs1, oldest, input, outputs) =>
      && oldest <= SmallestSnapshot(st)
      && level + 1 < NUM_LEVELS && InputsOk(st.levels, level, inputs0, inputs1)
      && IsInput(input, inputs0 + inputs1)
      && Written(outputs) == Survivors(st.levels, level, input, |input|, oldest)
      && FreshNumbers(outputs, st.nextFile)
    case GetSnapshot => true
    case ReleaseSnapshot(i) => i < |st.snapshots|
  }

  /** The state after an action. (A memtable is always sorted; an empty one makes no table.) */
  ghost function After(st: State, a: Action, o: Options): State
    requires Enabled(st, a, o)
  {
    match a
    case Write(ops) =>
      st.(mem := InsertBatch(st.mem, ops, st.lastSequence + 1), lastSequence := st.lastSequence + |ops|)
    case SwitchMemTable => st.(mem := [], imm := Some(st.mem))
    case CompactMemTable(level, number) =>
      if st.imm.value == [] || !Sorted(st.imm.value) then st.(imm := None, nextFile := number + 1)
      else
        var f: File := Table(number, o.builtSize(st.imm.value), st.imm.value);
        st.(imm := None, levels := Edited(st.levels, FlushEdit(level, f)), nextFile := number + 1)
    case TrivialMove(level, f) => st.(levels := Edited(st.levels, MoveEdit(level, f)))
    case Compact(level, inputs0, inputs1, _, _, outputs) =>
      st.(levels := Edited(st.levels, CompactionEdit(level, inputs0, inputs1, outputs)),
          nextFile := NextNumber(outputs, st.nextFile))
    case GetSnapshot => st.(snapshots := st.snapshots + [st.lastSequence])
    case ReleaseSnapshot(i) => st.(snapshots := st.snapshots[..i] + st.snapshots[i + 1..])
  }

  const INITIAL := State([], None, NO_FILES, 0, [], 2)

  /** A run from the empty store. */
  ghost predicate IsRun(states: seq<State>, actions: seq<Action>, o: Options) {
    && |states| == |actions| + 1 && states[0] == INITIAL
    && forall i | 0 <= i < |actions| ::
         Enabled(states[i], actions[i], o) && states[i + 1] == After(states[i], actions[i], o)
  }

  // ---------- Edits on whole versions ----------

  lemma {:induction false} EditHolds(levels: Levels, e: Edit, l: nat)
    requires l < NUM_LEVELS && InOrder(levels[l]) && AddsFresh(levels[l], e, l)
    ensures var r := Edited(levels, e)[l];
            && InOrder(r)
            && forall f :: f in r <==> (f in levels[l] && (l, f.number) !in e.deleted) || (l, f) in e.added
  {
    EditedLevel(levels[l], e, l);
  }

  /** The files of levels n and n + 1 were replaced: `outs` came, at n + 1, for `in0` and `in1`. */
  ghost predicate Replaced(levels: Levels, after: Levels, n: nat, in0: seq<File>, in1: seq<File>, outs: seq<File>)
    requires n + 1 < NUM_LEVELS
  {
    && (forall l | 0 <= l < NUM_LEVELS :: InOrder(after[l]))
    && (forall l | 0 <= l < NUM_LEVELS && l != n && l != n + 1 :: after[l] == levels[l])
    && (forall f :: f in after[n] <==> f in levels[n] && f !in in0)
    && (forall f :: f in after[n + 1] <==> (f in levels[n + 1] && f !in in1) || f in outs)
  }

  lemma {:induction false} UntouchedLevel(levels: Levels, e: Edit, l: nat)
    requires l < NUM_LEVELS && InOrder(levels[l])
    requires (forall d | d in e.deleted :: d.0 != l) && (forall a | a in e.added :: a.0 != l)
    ensures Edited(levels, e)[l] == levels[l]
  {
    hide Edited;
    forall i | 0 <= i < |e.added| ensures e.added[i].0 != l {
      assert e.added[i] in e.added;
    }
    EditHolds(levels, e, l);
    InOrderIsCanonical(Edited(levels, e)[l], levels[l]);
  }

  lemma {:induction false} AddsElsewhere(base: seq<File>, e: Edit, l: nat)
    requires forall a | a in e.added :: a.0 != l
    ensures AddsFresh(base, e, l)
  {
    assert forall i | 0 <= i < |e.added| :: e.added[i] in e.added;
  }

  /** Does the edit do no more than exchange the inputs for the outputs? */
  ghost predicate Exchanges(levels: Levels, n: nat, in0: seq<File>, in1: seq<File>, outs: seq<File>, e: Edit)
    requires n + 1 < NUM_LEVELS
  {
    && (forall f | f in in0 :: f in levels[n]) && (forall f | f in in1 :: f in levels[n + 1])
    && e.deleted == InputDeletions(n, in0) + InputDeletions(n + 1, in1)
    && (forall a :: a in e.added <==> a.0 == n + 1 && a.1 in outs)
    && AddsFresh(levels[n + 1], e, n + 1)
  }

  lemma {:induction false} UpperExchanged(levels: Levels, nextFile: nat, n: nat, in0: seq<File>, in1: seq<File>,
      outs: seq<File>, e: Edit)
    requires n + 1 < NUM_LEVELS && FilesOk(levels, nextFile) && Exchanges(levels, n, in0, in1, outs, e)
    ensures InOrder(Edited(levels, e)[n]) && forall f :: f in Edited(levels, e)[n] <==> f in levels[n] && f !in in0
  {
    hide Edited, AddsFresh, InOrder;
    AddsElsewhere(levels[n], e, n);
    EditHolds(levels, e, n);
    DeletedByNumber(levels, nextFile, n, in0, e.deleted);
  }

  lemma {:induction false} LowerExchanged(levels: Levels, nextFile: nat, n: nat, in0: seq<File>, in1: seq<File>,
      outs: seq<File>, e: Edit)
    requires n + 1 < NUM_LEVELS && FilesOk(levels, nextFile) && Exchanges(levels, n, in0, in1, outs, e)
    ensures InOrder(Edited(levels, e)[n + 1])
    ensures forall f :: f in Edited(levels, e)[n + 1] <==> (f in levels[n + 1] && f !in in1) || f in outs
  {
    hide Edited, AddsFresh, InOrder;
    EditHolds(levels, e, n + 1);
    DeletedByNumber(levels, nextFile, n + 1, in1, e.deleted);
  }

  lemma {:induction false} OthersUntouched(levels: Levels, nextFile: nat, n: nat, in0: seq<File>, in1: seq<File>,
      outs: seq<File>, e: Edit)
    requires n + 1 < NUM_LEVELS && FilesOk(levels, nextFile) && Exchanges(levels, n, in0, in1, outs, e)
    ensures forall l | 0 <= l < NUM_LEVELS && l != n && l != n + 1 ::
        Edited(levels, e)[l] == levels[l] && InOrder(levels[l])
  {
    hide Edited, InOrder, AddsFresh;
    forall l | 0 <= l < NUM_LEVELS && l != n && l != n + 1
      ensures Edited(levels, e)[l] == levels[l] && InOrder(levels[l])
    {
      UntouchedLevel(levels, e, l);
    }
  }

  /** An edit that deletes the inputs by number and adds the outputs replaces just those files. */
  lemma {:induction false} EditReplaces(levels: Levels, nextFile: nat, n: nat, in0: seq<File>, in1: seq<File>,
      outs: seq<File>, e: Edit)
    requires n + 1 < NUM_LEVELS && FilesOk(levels, nextFile) && Exchanges(levels, n, in0, in1, outs, e)
    ensures Replaced(levels, Edited(levels, e), n, in0, in1, outs)
  {
    hide Edited, InOrder, Exchanges, FilesOk;
    OthersUntouched(levels, nextFile, n, in0, in1, outs, e);
    UpperExchanged(levels, nextFile, n, in0, in1, outs, e);
    LowerExchanged(levels, nextFile, n, in0, in1, outs, e);
  }

  lemma {:induction false} DeletedByNumber(levels: Levels, nextFile: nat, l: nat, inputs: seq<File>,
      deleted: set<(nat, nat)>)
    requires l < NUM_LEVELS && FilesOk(levels, nextFile) && forall f | f in inputs :: f in levels[l]
    requires forall d | d in deleted && d.0 == l :: d in InputDeletions(l, inputs)
    requires InputDeletions(l, inputs) <= deleted
    ensures forall f | f in levels[l] :: (l, f.number) in deleted <==> f in inputs
  {
    hide InOrder;
    forall f | f in levels[l] ensures (l, f.number) in deleted <==> f in inputs {
      if f in inputs {
        assert (l, f.number) in InputDeletions(l, inputs);
      }
      if (l, f.number) in InputDeletions(l, inputs) {
        var g :| g in inputs && (l, f.number) == (l, g.number);
      }
    }
  }
}
