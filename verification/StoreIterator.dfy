/** The iterator a user gets: over the merge of both memtables, every level-0 file, and each lower
    level as one concatenated run. */
module StoreIterators {
  import opened Format
  import opened Versions
  import opened CompactionWork
  import opened Database
  import opened DatabaseReads
  import opened DbImpl
  import opened Merger
  import opened DbIter

  // ---------- Runs that share nothing ----------

  /** Sorted runs that hold the entries of a set, none in two runs. */
  ghost predicate RunsOf(runs: seq<seq<Entry>>, es: set<Entry>) {
    && (forall i | 0 <= i < |runs| :: Sorted(runs[i]) && SetOf(runs[i]) <= es)
    && (forall i, j | 0 <= i < j < |runs| :: SetOf(runs[i]) !! SetOf(runs[j]))
    && forall e | e in es :: exists i :: 0 <= i < |runs| && e in SetOf(runs[i])
  }

  lemma {:induction false} NoRuns()
    ensures RunsOf([], {})
  {
  }

  lemma {:induction false} OneRun(run: seq<Entry>)
    requires Sorted(run)
    ensures RunsOf([run], SetOf(run))
  {
    hide Sorted;
    assert [run][0] == run;
  }

  lemma {:induction false} RunsOfBoth(a: seq<seq<Entry>>, b: seq<seq<Entry>>, inA: set<Entry>, inB: set<Entry>)
    requires RunsOf(a, inA) && RunsOf(b, inB) && inA !! inB
    ensures RunsOf(a + b, inA + inB)
  {
    hide Sorted, SetOf;
    var ab := a + b;
    forall i | 0 <= i < |ab| ensures Sorted(ab[i]) && SetOf(ab[i]) <= inA + inB {
      assert ab[i] == if i < |a| then a[i] else b[i - |a|];
    }
    forall i, j | 0 <= i < j < |ab| ensures SetOf(ab[i]) !! SetOf(ab[j]) {
      assert ab[i] == if i < |a| then a[i] else b[i - |a|];
      assert ab[j] == if j < |a| then a[j] else b[j - |a|];
    }
    forall e | e in inA + inB ensures exists i :: 0 <= i < |ab| && e in SetOf(ab[i]) {
      if e in inA {
        var i :| 0 <= i < |a| && e in SetOf(a[i]);
        assert ab[i] == a[i];
      } else {
        var i :| 0 <= i < |b| && e in SetOf(b[i]);
        assert ab[|a| + i] == b[i];
      }
    }
  }

  /** Such runs can be merged. */
  lemma {:induction false} RunsMerge(runs: seq<seq<Entry>>, es: set<Entry>)
      returns (merged: seq<Entry>, origin: seq<(nat, nat)>)
    requires RunsOf(runs, es) && Distinct(es)
    ensures IsMergeOf(merged, origin, runs) && Sorted(merged) && SetOf(merged) == es
  {
    hide Sorted, IsMergeOf;
    forall p: (nat, nat), q: (nat, nat), x, y | PlaceOf(runs, x, p) && PlaceOf(runs, y, q) && x.key == y.key
        ensures p == q {
      OnePlace(runs, es, x, y, p, q);
    }
    merged, origin := MergeExists(runs);
    forall e ensures e in merged <==> e in es {
      if e in es {
        var i :| 0 <= i < |runs| && e in SetOf(runs[i]);
        var j :| 0 <= j < |runs[i]| && runs[i][j] == e;
        assert PlaceOf(runs, e, (i, j));
      }
      if p: (nat, nat) :| PlaceOf(runs, e, p) {
        assert e in SetOf(runs[p.0]);
      }
    }
    MergedIsSorted(merged, origin, runs);
  }

  lemma {:induction false} OnePlace(runs: seq<seq<Entry>>, es: set<Entry>, x: Entry, y: Entry, p: (nat, nat),
      q: (nat, nat))
    requires RunsOf(runs, es) && Distinct(es) && PlaceOf(runs, x, p) && PlaceOf(runs, y, q) && x.key == y.key
    ensures p == q
  {
    hide Sorted;
    assert x in SetOf(runs[p.0]) && y in SetOf(runs[q.0]);
    assert x == y;
    assert p.0 == q.0;
    SameEntrySameIndex(runs[p.0], p.1, q.1);
  }

  // ---------- The runs of the store ----------

  /** Level 0 file by file, and each other level that has files as one run. */
  function TableRuns(levels: Levels, n: nat): seq<seq<Entry>>
    requires 1 <= n <= NUM_LEVELS
  {
    if n == 1 then TableContents(levels[0])
    else TableRuns(levels, n - 1) + if levels[n - 1] == [] then [] else [Written(levels[n - 1])]
  }

  function InternalRuns(mem: seq<Entry>, imm: Option<seq<Entry>>, levels: Levels): seq<seq<Entry>> {
    [mem] + (if imm.Some? then [imm.value] else []) + TableRuns(levels, NUM_LEVELS)
  }

  lemma {:induction false} FileRunsHold(all: seq<File>, files: seq<File>)
    requires HigherNumberIsNewer(all) && DistinctNumbers(files) && forall f | f in files :: f in all
    ensures RunsOf(TableContents(files), EntriesOf(files))
  {
    hide HigherNumberIsNewer, DistinctNumbers;
    var runs := TableContents(files);
    forall i, j | 0 <= i < j < |runs| ensures SetOf(runs[i]) !! SetOf(runs[j]) {
      forall e | e in SetOf(runs[i]) ensures e !in SetOf(runs[j]) {
        if e in SetOf(runs[j]) {
          Level0FilesApart(all, files, i, j, e);
        }
      }
    }
    forall e | e in EntriesOf(files) ensures exists i :: 0 <= i < |runs| && e in SetOf(runs[i]) {
      var i, j := EntryPlace(files, e);
      assert e in SetOf(runs[i]);
    }
    forall i | 0 <= i < |runs| ensures Sorted(runs[i]) && SetOf(runs[i]) <= EntriesOf(files) {
      FileIsSorted(files[i]);
      forall e | e in SetOf(runs[i]) ensures e in EntriesOf(files) {
        FileEntriesIn(files, i, e);
      }
    }
  }

  lemma {:induction false} FileIsSorted(f: File)
    ensures Sorted(f.entries)
  {
  }

  lemma {:induction false} LevelRunHolds(files: seq<File>)
    requires LevelSorted(files)
    ensures RunsOf(if files == [] then [] else [Written(files)], EntriesOf(files))
  {
    hide LevelSorted, EntriesOf, Sorted, RunsOf;
    ConcatenationSorted(files);
    if files == [] {
      NoFilesNoEntries();
      NoRuns();
    } else {
      OneRun(Written(files));
      assert SetOf(Written(files)) == EntriesOf(files);
    }
  }

  lemma {:induction false} TableRunsHold(levels: Levels, n: nat)
    requires VersionOk(levels) && 1 <= n <= NUM_LEVELS
    ensures RunsOf(TableRuns(levels, n), LevelsAbove(levels, n))
    decreases n
  {
    hide LevelSorted, EntriesOf, RunsOf, Distinct, Newer, HigherNumberIsNewer, DistinctNumbers;
    if n == 1 {
      FileRunsHold(levels[0], levels[0]);
      assert LevelsAbove(levels, 1) == EntriesOf(levels[0]);
    } else {
      TableRunsHold(levels, n - 1);
      LevelRunHolds(levels[n - 1]);
      LevelApart(levels, n - 1);
      RunsOfBoth(TableRuns(levels, n - 1), if levels[n - 1] == [] then [] else [Written(levels[n - 1])],
                 LevelsAbove(levels, n - 1), EntriesOf(levels[n - 1]));
    }
  }

  lemma {:induction false} LevelApart(levels: Levels, n: nat)
    requires VersionOk(levels) && n < NUM_LEVELS
    ensures LevelsAbove(levels, n) !! EntriesOf(levels[n])
    ensures LevelsAbove(levels, n + 1) == LevelsAbove(levels, n) + EntriesOf(levels[n])
  {
    hide LevelSorted, EntriesOf, Distinct, Newer, HigherNumberIsNewer, DistinctNumbers;
    forall l | 0 <= l < n ensures EntriesOf(levels[l]) !! EntriesOf(levels[n]) {
      NewerIsApart(EntriesOf(levels[l]), EntriesOf(levels[n]));
    }
  }

  /** The runs that an iterator is given hold the whole store. */
  lemma {:induction false} InternalRunsHold(st: State)
    requires Inv(st)
    ensures RunsOf(InternalRuns(st.mem, st.imm, st.levels), All(st))
  {
    hide VersionOk, FilesOk, RunsOf, Sorted, Newer, TableRuns, EntriesOf, Distinct;
    var imm := if st.imm.Some? then [st.imm.value] else [];
    OneRun(st.mem);
    if st.imm.Some? {
      OneRun(st.imm.value);
    } else {
      NoRuns();
    }
    TableRunsHold(st.levels, NUM_LEVELS);
    assert LevelsAbove(st.levels, NUM_LEVELS) == TableSet(st);
    NewerIsApart(SetOf(st.mem), ImmSet(st));
    NewerIsApart(SetOf(st.mem), TableSet(st));
    NewerIsApart(ImmSet(st), TableSet(st));
    RunsOfBoth([st.mem], imm, SetOf(st.mem), ImmSet(st));
    RunsOfBoth([st.mem] + imm, TableRuns(st.levels, NUM_LEVELS), SetOf(st.mem) + ImmSet(st), TableSet(st));
  }

  // ---------- The iterator ----------

  /** An iterator over the store, at a snapshot or now. */
  method NewIterator(store: DBImpl, snapshot: Option<SequenceNumber>) returns (it: DBIter)
    requires store.Valid()
    ensures it.Valid() && fresh(it) && fresh(it.iter) && it.At() == None
    ensures Sorted(it.es) && SetOf(it.es) == All(store.Abs())
    ensures it.sequence == if snapshot.Some? then snapshot.value else store.lastSequence
  {
    hide Inv, All, IsMergeOf, Sorted, RunsOf, InternalRuns;
    ghost var st := store.Abs();
    var runs := InternalRuns(store.mem, store.imm, store.levels);
    InternalRunsHold(st);
    StoreDistinct(st);
    ghost var merged, origin := RunsMerge(runs, All(st));
    var iter := new MergingIterator(runs, merged, origin);
    it := new DBIter(iter, if snapshot.Some? then snapshot.value else store.lastSequence);
  }

  lemma {:induction false} StoreDistinct(st: State)
    requires Inv(st)
    ensures Distinct(All(st))
  {
  }

  /** Where such an iterator can stand, and what it shows there: the keys for which a read at the
      same sequence number finds a value, with that value. */
  lemma {:induction false} IteratorShowsReads(st: State, es: seq<Entry>, s: SequenceNumber, u: UserKey)
    requires Inv(st) && Sorted(es) && SetOf(es) == All(st)
    ensures forall i | 0 <= i < |es| && Yields(es, s, i) && es[i].key.user == u :: ReadAt(st, u, s) == Some(es[i].value)
    ensures ReadAt(st, u, s).Some? ==> exists i :: 0 <= i < |es| && Yields(es, s, i) && es[i].key.user == u
  {
    hide Inv, All, Read, Yields, Sorted;
    StoreDistinct(st);
    LivePositionsAreReads(es, s, u);
  }
}
