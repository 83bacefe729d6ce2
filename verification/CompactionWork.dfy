/** The compaction loop: which merged entries survive, and how they are cut into files. */
module CompactionWork {
  import opened Format
  import opened Versions
  import opened Merger
  import opened OutputCuts

  // ---------- The drop rules, by position in the merged input ----------

  /** No file below the output level has a range that holds `u`. */
  ghost predicate BaseLevel(levels: Levels, level: nat, u: UserKey) {
    forall l, f | level + 2 <= l < NUM_LEVELS && f in levels[l] :: !(Smallest(f).user <= u <= Largest(f).user)
  }

  /** Rule (A): the entry just before has the same user key and is visible to every snapshot. */
  predicate Hidden(input: seq<Entry>, i: nat, smallest: SequenceNumber)
    requires i < |input|
  {
    i > 0 && input[i - 1].key.user == input[i].key.user && input[i - 1].key.sequence <= smallest
  }

  /** The tombstone rule: a deletion visible to every snapshot, with nothing below to delete. */
  ghost predicate Obsolete(levels: Levels, level: nat, e: Entry, smallest: SequenceNumber) {
    e.key.kind == Deletion && e.key.sequence <= smallest && BaseLevel(levels, level, e.key.user)
  }

  ghost predicate Dropped(levels: Levels, level: nat, input: seq<Entry>, i: nat, smallest: SequenceNumber)
    requires i < |input|
  {
    Hidden(input, i, smallest) || Obsolete(levels, level, input[i], smallest)
  }

  /** What is left of the first n merged entries. */
  ghost function Survivors(levels: Levels, level: nat, input: seq<Entry>, n: nat, smallest: SequenceNumber): seq<Entry>
    requires n <= |input|
  {
    if n == 0 then []
    else Survivors(levels, level, input, n - 1, smallest)
         + (if Dropped(levels, level, input, n - 1, smallest) then [] else [input[n - 1]])
  }

  function Written(files: seq<File>): seq<Entry> {
    if files == [] then [] else Written(files[..|files| - 1]) + files[|files| - 1].entries
  }

  // ---------- Where the outputs are cut ----------

  function TableContents(files: seq<File>): seq<seq<Entry>> {
    seq(|files|, i requires 0 <= i < |files| => files[i].entries)
  }

  /** Tables as the loop makes them: numbered one after the other, as big as tables of these entries
      are, and cut where the loop cuts. */
  ghost predicate MadeByLoop(outputs: seq<File>, input: seq<Entry>, grandparents: seq<File>, maxFileSize: nat,
      builtSize: seq<Entry> -> nat, first: nat)
  {
    && (forall i | 0 <= i < |outputs| ::
        outputs[i].number == first + i && outputs[i].size == builtSize(outputs[i].entries))
    && Cutting(input, grandparents, maxFileSize, builtSize).CutRight(TableContents(outputs))
  }

  /** Then the input and what survives of it determine the tables. */
  lemma {:induction false} OutputsDetermined(a: seq<File>, b: seq<File>, input: seq<Entry>, grandparents: seq<File>,
      maxFileSize: nat, builtSize: seq<Entry> -> nat, first: nat)
    requires MadeByLoop(a, input, grandparents, maxFileSize, builtSize, first)
    requires MadeByLoop(b, input, grandparents, maxFileSize, builtSize, first)
    requires Written(a) == Written(b)
    ensures a == b
  {
    hide Cutting.Ending, CutWhere, Written;
    WrittenIsContents(a);
    WrittenIsContents(b);
    OneWayToCut(TableContents(a), TableContents(b), Cutting(input, grandparents, maxFileSize, builtSize).Ending());
    assert |a| == |TableContents(a)| == |TableContents(b)| == |b|;
    forall i | 0 <= i < |a| ensures a[i] == b[i] {
      assert TableContents(a)[i] == TableContents(b)[i];
    }
  }

  lemma {:induction false} WrittenIsContents(files: seq<File>)
    ensures Written(files) == Concat(TableContents(files))
    decreases |files|
  {
    if files != [] {
      var n := |files| - 1;
      WrittenIsContents(files[..n]);
      assert TableContents(files)[..n] == TableContents(files[..n]);
    }
  }

  // ---------- The compaction object ----------

  class Compaction {
    const levels: Levels
    const level: nat
    const grandparents: seq<File>
    const maxFileSize: nat
    var levelPtrs: seq<nat>
    var grandparentIndex: nat
    var seenKey: bool
    var overlappedBytes: nat

    constructor (levels: Levels, level: nat, grandparents: seq<File>, maxFileSize: nat)
      ensures this.levels == levels && this.level == level && Valid(None)
      ensures this.grandparents == grandparents && this.maxFileSize == maxFileSize
      ensures grandparentIndex == 0 && !seenKey && overlappedBytes == 0
    {
      this.levels, this.level := levels, level;
      this.grandparents, this.maxFileSize := grandparents, maxFileSize;
      levelPtrs := seq(NUM_LEVELS, _ => 0);
      grandparentIndex, seenKey, overlappedBytes := 0, false, 0;
    }

    /** Fed keys up to `last`, each level pointer has passed only files that end before it. */
    ghost predicate Valid(last: Option<UserKey>)
      reads `levelPtrs, `grandparentIndex
    {
      PointersOk(last) && grandparentIndex <= |grandparents|
    }

    ghost predicate PointersOk(last: Option<UserKey>)
      reads `levelPtrs
    {
      && |levelPtrs| == NUM_LEVELS
      && forall l | 0 <= l < NUM_LEVELS ::
           && levelPtrs[l] <= |levels[l]|
           && forall j | 0 <= j < levelPtrs[l] :: last.Some? && Largest(levels[l][j]).user < last.value
    }

    /** Queried with keys that never decrease, the advancing pointers answer the plain question. */
    method IsBaseLevelForKey(u: UserKey, ghost last: Option<UserKey>) returns (r: bool)
      requires Valid(last) && (last.Some? ==> last.value <= u)
      requires forall l | 1 <= l < NUM_LEVELS :: LevelSorted(levels[l])
      modifies this`levelPtrs
      ensures Valid(Some(u))
      ensures r <==> BaseLevel(levels, level, u)
    {
      hide LevelSorted, Sorted;
      var lvl := level + 2;
      while lvl < NUM_LEVELS
        invariant lvl >= level + 2 && Valid(Some(u))
        invariant forall l, f | level + 2 <= l < lvl && l < NUM_LEVELS && f in levels[l] ::
                    !(Smallest(f).user <= u <= Largest(f).user)
      {
        var files := levels[lvl];
        while levelPtrs[lvl] < |files|
          invariant Valid(Some(u))
          invariant forall j | 0 <= j < levelPtrs[lvl] :: Largest(files[j]).user < u
          invariant forall l, f | level + 2 <= l < lvl && f in levels[l] :: !(Smallest(f).user <= u <= Largest(f).user)
          decreases |files| - levelPtrs[lvl]
        {
          var f := files[levelPtrs[lvl]];
          if u <= Largest(f).user {
            if u >= Smallest(f).user {
              assert f in levels[lvl];
              return false;
            }
            break;
          }
          levelPtrs := levelPtrs[lvl := levelPtrs[lvl] + 1];
        }
        NoneFurtherHoldsKey(files, levelPtrs[lvl], u);
        lvl := lvl + 1;
      }
      r := true;
    }

    /** Cut the current output before `key` if it overlaps too much of the grandparent level. */
    method ShouldStopBefore(key: InternalKey, ghost last: Option<UserKey>) returns (r: bool)
      requires Valid(last)
      modifies this`grandparentIndex, this`seenKey, this`overlappedBytes
      ensures Valid(last) && seenKey && old(grandparentIndex) <= grandparentIndex
      ensures forall j | old(grandparentIndex) <= j < grandparentIndex :: Less(Largest(grandparents[j]), key)
      ensures grandparentIndex < |grandparents| ==> !Less(Largest(grandparents[grandparentIndex]), key)
      ensures var passed := grandparents[old(grandparentIndex)..grandparentIndex];
              var bytes := old(overlappedBytes) + if old(seenKey) then TotalFileSize(passed) else 0;
              r == (bytes > 10 * maxFileSize) && overlappedBytes == if r then 0 else bytes
    {
      hide PointersOk;
      while grandparentIndex < |grandparents| && Compare(key, Largest(grandparents[grandparentIndex])) > 0
        invariant Valid(last) && levelPtrs == old(levelPtrs) && seenKey == old(seenKey)
        invariant old(grandparentIndex) <= grandparentIndex
        invariant forall j | old(grandparentIndex) <= j < grandparentIndex :: Less(Largest(grandparents[j]), key)
        invariant overlappedBytes == old(overlappedBytes)
                    + if seenKey then TotalFileSize(grandparents[old(grandparentIndex)..grandparentIndex]) else 0
        decreases |grandparents| - grandparentIndex
      {
        TotalOfNext(grandparents, old(grandparentIndex), grandparentIndex);
        if seenKey {
          overlappedBytes := overlappedBytes + grandparents[grandparentIndex].size;
        }
        grandparentIndex := grandparentIndex + 1;
      }
      seenKey := true;
      if overlappedBytes > 10 * maxFileSize {
        overlappedBytes := 0;
        r := true;
      } else {
        r := false;
      }
    }
  }

  lemma {:induction false} NoneFurtherHoldsKey(files: seq<File>, p: nat, u: UserKey)
    requires LevelSorted(files) && p <= |files|
    requires forall j | 0 <= j < p :: Largest(files[j]).user < u
    requires p < |files| ==> u < Smallest(files[p]).user
    ensures forall f | f in files :: !(Smallest(f).user <= u <= Largest(f).user)
  {
    forall j | 0 <= j < |files| ensures !(Smallest(files[j]).user <= u <= Largest(files[j]).user) {
      if j > p {
        LargestsIncrease(files, p, j);
      }
    }
  }

  // ---------- The loop ----------

  /** The table being built: its file number and the entries added so far. */
  datatype Output = Output(number: nat, entries: seq<Entry>)

  /** The output side of a compaction. `builtSize` is the size a table of some entries reaches on
      disk; outputs take the file numbers from `firstNumber` on. */
  class CompactionState {
    const builtSize: seq<Entry> -> nat
    ghost const firstNumber: nat
    var nextFile: nat
    var outputs: seq<File>
    var builder: Option<Output>

    constructor (nextFile: nat, builtSize: seq<Entry> -> nat)
      ensures Valid() && Kept() == [] && firstNumber == nextFile && builder == None && outputs == []
          && this.builtSize == builtSize
    {
      this.nextFile, this.builtSize := nextFile, builtSize;
      firstNumber, outputs, builder := nextFile, [], None;
    }

    ghost predicate Valid()
      reads this
    {
      && (forall i | 0 <= i < |outputs| ::
          outputs[i].number == firstNumber + i && outputs[i].size == builtSize(outputs[i].entries))
      && nextFile == firstNumber + |outputs| + (if builder.Some? then 1 else 0)
      && (builder.Some? ==> builder.value.number == firstNumber + |outputs|
                            && builder.value.entries != [] && Sorted(builder.value.entries))
    }

    /** Every entry kept so far, in files and in the table being built. */
    ghost function Kept(): seq<Entry>
      reads this
    {
      Written(outputs) + (if builder.Some? then builder.value.entries else [])
    }

    /** The entries of the table being built. */
    function Open(): seq<Entry>
      reads this
    {
      if builder.Some? then builder.value.entries else []
    }

    lemma {:induction false} OpenIsNotEmpty()
      requires Valid()
      ensures builder.Some? ==> builder.value.entries != []
    {
    }

    method FinishCompactionOutputFile()
      requires Valid() && builder.Some?
      modifies this
      ensures Valid() && builder == None && Kept() == old(Kept()) && nextFile == old(nextFile)
      ensures TableContents(outputs) == old(TableContents(outputs) + [Open()])
    {
      var o := builder.value;
      var f: File := Table(o.number, builtSize(o.entries), o.entries);
      assert (outputs + [f])[..|outputs|] == outputs;
      outputs := outputs + [f];
      builder := None;
    }

    /** Add an entry past all those being built, opening an output file if there is none, and
        closing it when it is big enough. */
    method Add(e: Entry, maxFileSize: nat)
      requires Valid()
      requires builder.Some? ==> Less(builder.value.entries[|builder.value.entries| - 1].key, e.key)
      modifies this
      ensures Valid() && Kept() == old(Kept()) + [e]
      ensures builder.Some? ==> builder.value.entries[|builder.value.entries| - 1] == e
      ensures var open := old(Open()) + [e];
              if builtSize(open) >= maxFileSize
                  then Open() == [] && TableContents(outputs) == old(TableContents(outputs)) + [open]
                  else Open() == open && outputs == old(outputs)
    {
      if builder.None? {
        builder := Some(Output(nextFile, [e]));
        nextFile := nextFile + 1;
      } else {
        builder := Some(builder.value.(entries := builder.value.entries + [e]));
      }
      assert Kept() == old(Kept()) + [e];
      assert Open() == old(Open()) + [e];
      if builtSize(builder.value.entries) >= maxFileSize {
        FinishCompactionOutputFile();
      }
    }
  }

  /** The decision for entry n of the merged input, from the key and sequence number remembered
      of the entry before it. */
  method DropEntry(c: Compaction, ghost merged: seq<Entry>, ghost n: nat, e: Entry,
                   current: Option<UserKey>, lastSequence: SequenceNumber, smallest: SequenceNumber)
    returns (drop: bool, current': Option<UserKey>, lastSequence': SequenceNumber)
    requires forall l | 1 <= l < NUM_LEVELS :: LevelSorted(c.levels[l])
    requires smallest < MAX_SEQUENCE && n < |merged| && merged[n] == e && Sorted(merged)
    requires current == if n == 0 then None else Some(merged[n - 1].key.user)
    requires n > 0 ==> lastSequence == merged[n - 1].key.sequence
    requires c.Valid(current)
    modifies c`levelPtrs
    ensures c.Valid(current')
    ensures current' == Some(e.key.user) && lastSequence' == e.key.sequence
    ensures drop <==> Dropped(c.levels, c.level, merged, n, smallest)
  {
    hide LevelSorted, BaseLevel;
    current', lastSequence' := current, lastSequence;
    drop := false;
    if current' != Some(e.key.user) {
      // First occurrence of this user key.
      current' := Some(e.key.user);
      lastSequence' := MAX_SEQUENCE;
    }
    if lastSequence' <= smallest {
      drop := true;
    } else if e.key.kind == Deletion && e.key.sequence <= smallest {
      assert n > 0 ==> Less(merged[n - 1].key, merged[n].key);
      drop := c.IsBaseLevelForKey(e.key.user, current);
    }
    lastSequence' := e.key.sequence;
  }

  /** n merged entries have been handled; the survivors among them are in `out`. */
  ghost predicate Handled(c: Compaction, merged: seq<Entry>, out: CompactionState, smallest: SequenceNumber, n: nat,
                          current: Option<UserKey>, lastSequence: SequenceNumber)
    reads c, out
  {
    && n <= |merged| && smallest < MAX_SEQUENCE
    && current == (if n == 0 then None else Some(merged[n - 1].key.user))
    && (n > 0 ==> lastSequence == merged[n - 1].key.sequence)
    && c.Valid(current)
    && (forall l | 1 <= l < NUM_LEVELS :: LevelSorted(c.levels[l]))
    && out.Valid() && out.Kept() == Survivors(c.levels, c.level, merged, n, smallest)
    && (n < |merged| && out.builder.Some? ==>
          Less(out.builder.value.entries[|out.builder.value.entries| - 1].key, merged[n].key))
  }

  /** And the merging iterator is on the next one. */
  ghost predicate Progress(c: Compaction, input: MergingIterator, out: CompactionState, smallest: SequenceNumber,
                           n: nat, current: Option<UserKey>, lastSequence: SequenceNumber)
    reads c, input, out
  {
    && Handled(c, input.merged, out, smallest, n, current, lastSequence) && CutAsFed(c, out, input.merged, n)
    && input.Valid() && input.At() == (if n < |input.merged| then Some(n) else None)
  }

  /** Bytes are counted from the last stop before entry n on. */
  ghost predicate Counted(c: Compaction, input: seq<Entry>, n: nat)
    requires n <= |input|
    reads c`grandparentIndex, c`seenKey, c`overlappedBytes
  {
    if n == 0 then !c.seenKey && c.grandparentIndex == 0 && c.overlappedBytes == 0
    else
      var from := CountedFrom(input, c.grandparents, 10 * c.maxFileSize, n);
      && c.seenKey && c.grandparentIndex == Ended(c.grandparents, input[n - 1].key)
      && c.overlappedBytes == BytesPassed(c.grandparents, input[from].key, input[n - 1].key)
  }

  ghost function CuttingOf(c: Compaction, out: CompactionState, input: seq<Entry>): Cutting {
    Cutting(input, c.grandparents, c.maxFileSize, out.builtSize)
  }

  /** Whether to stop before entry n is what has been counted, and what the entry adds. */
  method CountUpTo(c: Compaction, ghost input: seq<Entry>, ghost n: nat, key: InternalKey, ghost last: Option<UserKey>)
    returns (stop: bool)
    requires c.Valid(last) && n < |input| && input[n].key == key && Sorted(input) && Counted(c, input, n)
    modifies c`grandparentIndex, c`seenKey, c`overlappedBytes
    ensures c.Valid(last) && Counted(c, input, n + 1)
    ensures stop <==> StopsAt(input, c.grandparents, 10 * c.maxFileSize, n)
  {
    hide BytesPassed, TotalFileSize, CountedFrom, Compaction.PointersOk, Ended;
    ghost var gps, limit, before := c.grandparents, 10 * c.maxFileSize, c.grandparentIndex;
    stop := c.ShouldStopBefore(key, last);
    EndedIsUnique(gps, key, c.grandparentIndex) by {
      if n > 0 {
        assert Less(input[n - 1].key, input[n].key);
      }
    }
    assert c.grandparentIndex == Ended(gps, key);
    NothingPassed(gps, key);
    ghost var from := CountedFrom(input, gps, limit, n);
    if n > 0 {
      RanksInOrder(input, from, n - 1);
      MoreBytes(gps, input[from].key, input[n - 1].key, key);
    }
    CountedNext(input, gps, limit, n);
  }

  method CutOutputBefore(c: Compaction, out: CompactionState, key: InternalKey, ghost input: seq<Entry>, ghost n: nat,
      ghost last: Option<UserKey>)
    requires c.Valid(last) && out.Valid() && n < |input| && input[n].key == key && Sorted(input) && Counted(c, input, n)
    requires CutSoFar(CuttingOf(c, out, input), TableContents(out.outputs), out.Open(), n)
    requires out.builder.Some? ==> Less(out.builder.value.entries[|out.builder.value.entries| - 1].key, key)
    modifies c`grandparentIndex, c`seenKey, c`overlappedBytes, out
    ensures c.Valid(last) && out.Valid() && out.Kept() == old(out.Kept()) && Counted(c, input, n + 1)
    ensures CutSoFar(CuttingOf(c, out, input), TableContents(out.outputs), out.Open(), n + 1)
    ensures out.builder == old(out.builder) || out.builder == None
  {
    hide TableContents, Counted, CutSoFar, Written, Compaction.PointersOk, Sorted, StopsAt;
    StopHandled(CuttingOf(c, out, input), TableContents(out.outputs), out.Open(), n);
    var stop := CountUpTo(c, input, n, key, last);
    if stop && out.builder.Some? {
      out.FinishCompactionOutputFile();
    }
  }

  method KeepEntry(c: Compaction, out: CompactionState, e: Entry, ghost input: seq<Entry>, ghost n: nat)
    requires out.Valid() && n < |input| && input[n] == e && Sorted(input)
    requires CutSoFar(CuttingOf(c, out, input), TableContents(out.outputs), out.Open(), n + 1)
    requires out.builder.Some? ==> Less(out.builder.value.entries[|out.builder.value.entries| - 1].key, e.key)
    modifies out
    ensures out.Valid() && out.Kept() == old(out.Kept()) + [e]
    ensures CutSoFar(CuttingOf(c, out, input), TableContents(out.outputs), out.Open(), n + 1)
    ensures out.builder.Some? ==> out.builder.value.entries[|out.builder.value.entries| - 1] == e
  {
    hide TableContents, CutSoFar, Written, CompactionState.Valid, Sorted;
    EntryHandled(CuttingOf(c, out, input), TableContents(out.outputs), out.Open(), n);
    out.Add(e, c.maxFileSize);
  }

  /** Where the outputs have been cut after n entries. */
  ghost predicate CutAsFed(c: Compaction, out: CompactionState, input: seq<Entry>, n: nat)
    requires n <= |input|
    reads c`grandparentIndex, c`seenKey, c`overlappedBytes, out
  {
    Counted(c, input, n) && CutSoFar(CuttingOf(c, out, input), TableContents(out.outputs), out.Open(), n)
  }

  method HandleEntry(c: Compaction, ghost merged: seq<Entry>, out: CompactionState, smallest: SequenceNumber,
                     ghost n: nat, e: Entry, current: Option<UserKey>, lastSequence: SequenceNumber)
    returns (current': Option<UserKey>, lastSequence': SequenceNumber)
    requires Handled(c, merged, out, smallest, n, current, lastSequence) && CutAsFed(c, out, merged, n)
    requires n < |merged| && merged[n] == e && Sorted(merged)
    modifies c, out
    ensures Handled(c, merged, out, smallest, n + 1, current', lastSequence') && CutAsFed(c, out, merged, n + 1)
  {
    hide LevelSorted, Dropped, Written, CompactionState.Valid, Counted, CutSoFar, Compaction.PointersOk, TableContents,
        CuttingOf, Sorted, Less;
    if n + 1 < |merged| {
      NextIsGreater(merged, n);
    }
    CutOutputBefore(c, out, e.key, merged, n, current);
    var drop;
    drop, current', lastSequence' := DropEntry(c, merged, n, e, current, lastSequence, smallest);
    if !drop {
      KeepEntry(c, out, e, merged, n);
    }
    out.OpenIsNotEmpty();
    assert n + 1 < |merged| && out.builder.Some? ==>
        Less(out.builder.value.entries[|out.builder.value.entries| - 1].key, merged[n + 1].key);
  }

  method CompactEntry(c: Compaction, input: MergingIterator, out: CompactionState, smallest: SequenceNumber,
                      ghost n: nat, current: Option<UserKey>, lastSequence: SequenceNumber)
    returns (current': Option<UserKey>, lastSequence': SequenceNumber)
    requires Progress(c, input, out, smallest, n, current, lastSequence) && input.current.Some?
    modifies c, input, out
    ensures Progress(c, input, out, smallest, n + 1, current', lastSequence')
  {
    hide Handled, CutAsFed, IsMergeOf, Sorted;
    input.CurrentIsUnderCursor();
    MergedIsSorted(input.merged, input.origin, input.runs);
    current', lastSequence' := HandleEntry(c, input.merged, out, smallest, n, input.Current(), current, lastSequence);
    input.Next();
  }

  lemma {:induction false} MergedIsSorted(merged: seq<Entry>, origin: seq<(nat, nat)>, runs: seq<seq<Entry>>)
    requires IsMergeOf(merged, origin, runs)
    ensures Sorted(merged)
  {
  }

  lemma {:induction false} NextIsGreater(es: seq<Entry>, n: nat)
    requires Sorted(es) && n + 1 < |es|
    ensures Less(es[n].key, es[n + 1].key)
    ensures forall k: InternalKey | Less(k, es[n].key) :: Less(k, es[n + 1].key)
  {
  }

  lemma {:induction false} NoTables()
    ensures TableContents([]) == []
  {
  }

  method FinishLastOutput(c: Compaction, out: CompactionState, ghost input: seq<Entry>)
    requires out.Valid() && CutAsFed(c, out, input, |input|)
    modifies out
    ensures out.Valid() && out.builder == None && Written(out.outputs) == old(out.Kept())
    ensures MadeByLoop(out.outputs, input, c.grandparents, c.maxFileSize, out.builtSize, out.firstNumber)
  {
    hide Written, CutSoFar, TableContents, Cutting.CutRight, Counted;
    LastClosed(CuttingOf(c, out, input), TableContents(out.outputs), out.Open(), |input|);
    if out.builder.Some? {
      out.FinishCompactionOutputFile();
    }
    assert Written(out.outputs) + [] == Written(out.outputs);
  }

  /** Run the compaction over the merged input: `out` keeps exactly the survivors, in order, in tables
      that are cut where they should be. */
  method DoCompactionWork(c: Compaction, input: MergingIterator, out: CompactionState, smallest: SequenceNumber)
    requires c.Valid(None) && input.Valid() && smallest < MAX_SEQUENCE
    requires c.grandparentIndex == 0 && !c.seenKey && c.overlappedBytes == 0
    requires out.Valid() && out.outputs == [] && out.Kept() == [] && out.builder == None
    requires forall l | 1 <= l < NUM_LEVELS :: LevelSorted(c.levels[l])
    modifies c, input, out
    ensures out.Valid() && out.builder == None
    ensures Written(out.outputs) == Survivors(c.levels, c.level, input.merged, |input.merged|, smallest)
    ensures MadeByLoop(out.outputs, input.merged, c.grandparents, c.maxFileSize, out.builtSize, out.firstNumber)
  {
    hide LevelSorted, Written, IsMergeOf, Compaction.PointersOk, CutSoFar, TableContents, Sorted, SeekIndex, Dropped,
        MadeByLoop, CountedFrom, BytesPassed, Ended, Less;
    var currentUserKey: Option<UserKey> := None;
    var lastSequenceForKey: SequenceNumber := MAX_SEQUENCE;
    ghost var n, merged := 0, input.merged;
    NothingCut(CuttingOf(c, out, merged));
    assert TableContents([]) == [] by { NoTables(); }
    input.SeekToFirst();
    while input.current.Some?
      invariant input.merged == merged && Progress(c, input, out, smallest, n, currentUserKey, lastSequenceForKey)
      decreases |merged| - n
    {
      currentUserKey, lastSequenceForKey :=
        CompactEntry(c, input, out, smallest, n, currentUserKey, lastSequenceForKey);
      n := n + 1;
    }
    FinishLastOutput(c, out, merged);
  }
}
