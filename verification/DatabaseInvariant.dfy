/** Every step of the state machine keeps the invariant. */
module DatabaseInvariant {
  import opened Format
  import opened Versions
  import opened VersionBuilder
  import opened CompactionInputs
  import opened CompactionWork
  import opened Database

  // ---------- Replacing files of two adjacent levels ----------

  /** The replacement files lie where their inputs lay: their entries are input entries, and
      every file left at their level is clear of all of them. */
  ghost predicate OutputsOk(levels: Levels, n: nat, in0: seq<File>, in1: seq<File>, outs: seq<File>)
    requires n + 1 < NUM_LEVELS
  {
    && (forall f | f in outs :: SetOf(f.entries) <= EntriesOf(in0) + EntriesOf(in1))
    && (forall f, g | f in outs && g in outs && f != g :: RangesDisjoint(f, g))
    && (forall f, g | f in outs && g in levels[n + 1] && g !in in1 :: RangesDisjoint(f, g))
  }

  lemma {:induction false} EntriesOfMonotone(a: seq<File>, b: seq<File>)
    requires forall f | f in a :: f in b
    ensures EntriesOf(a) <= EntriesOf(b)
  {
  }

  lemma {:induction false} NewerMonotone(a: set<Entry>, b: set<Entry>, a': set<Entry>, b': set<Entry>)
    requires Newer(a, b) && a' <= a && b' <= b
    ensures Newer(a', b')
  {
  }

  /** Where the entries of the two levels come from after a replacement. */
  lemma {:induction false} ReplacedEntries(levels: Levels, after: Levels, n: nat, in0: seq<File>, in1: seq<File>,
      outs: seq<File>)
    requires n + 1 < NUM_LEVELS && Replaced(levels, after, n, in0, in1, outs)
    requires (forall f | f in in0 :: f in levels[n]) && (forall f | f in in1 :: f in levels[n + 1])
    requires OutputsOk(levels, n, in0, in1, outs)
    ensures EntriesOf(after[n]) <= EntriesOf(levels[n])
    ensures EntriesOf(after[n + 1]) <= EntriesOf(levels[n + 1]) + EntriesOf(in0)
    ensures EntriesOf(in0) <= EntriesOf(levels[n])
  {
    hide InOrder, RangesDisjoint;
    EntriesOfMonotone(after[n], levels[n]);
    EntriesOfMonotone(in0, levels[n]);
    EntriesOfMonotone(in1, levels[n + 1]);
    var lower, both := after[n + 1], EntriesOf(levels[n + 1]) + EntriesOf(in0);
    forall e | e in EntriesOf(lower) ensures e in both {
      var f :| f in after[n + 1] && e in f.entries;
      if f in outs {
        assert e in SetOf(f.entries);
      }
    }
  }

  lemma {:induction false} ReplacedAges(levels: Levels, after: Levels, n: nat, in0: seq<File>, in1: seq<File>,
      outs: seq<File>)
    requires n + 1 < NUM_LEVELS && Replaced(levels, after, n, in0, in1, outs)
    requires (forall f | f in in0 :: f in levels[n]) && (forall f | f in in1 :: f in levels[n + 1])
    requires OutputsOk(levels, n, in0, in1, outs) && LeftBehindIsNewer(levels[n], in0)
    requires forall l, m :: 0 <= l < m < NUM_LEVELS ==> Newer(EntriesOf(levels[l]), EntriesOf(levels[m]))
    ensures forall l, m :: 0 <= l < m < NUM_LEVELS ==> Newer(EntriesOf(after[l]), EntriesOf(after[m]))
  {
    hide InOrder, RangesDisjoint, OutputsOk;
    ReplacedEntries(levels, after, n, in0, in1, outs);
    LeftBehindNewerThanInputs(levels[n], after[n], in0);
    forall l, m | 0 <= l < m < NUM_LEVELS ensures Newer(EntriesOf(after[l]), EntriesOf(after[m])) {
      hide Replaced, EntriesOf, LeftBehindIsNewer;
      assert l != n && l != n + 1 ==>
          after[l] == levels[l] by { ReplacedElsewhere(levels, after, n, in0, in1, outs, l); }
      assert m != n && m != n + 1 ==>
          after[m] == levels[m] by { ReplacedElsewhere(levels, after, n, in0, in1, outs, m); }
      if l == n && m == n + 1 {
        assert Newer(EntriesOf(levels[n]), EntriesOf(levels[n + 1]));
      } else if l == n + 1 {
        assert Newer(EntriesOf(levels[n]), EntriesOf(levels[m]));
        assert Newer(EntriesOf(levels[n + 1]), EntriesOf(levels[m]));
      } else if m == n + 1 {
        assert Newer(EntriesOf(levels[l]), EntriesOf(levels[n]));
        assert Newer(EntriesOf(levels[l]), EntriesOf(levels[n + 1]));
      } else {
        NewerMonotone(EntriesOf(levels[l]), EntriesOf(levels[m]), EntriesOf(after[l]), EntriesOf(after[m]));
      }
    }
  }

  lemma {:induction false} ReplacedElsewhere(levels: Levels, after: Levels, n: nat, in0: seq<File>, in1: seq<File>,
      outs: seq<File>, l: nat)
    requires n + 1 < NUM_LEVELS && Replaced(levels, after, n, in0, in1, outs) && l < NUM_LEVELS
    ensures l != n && l != n + 1 ==> after[l] == levels[l]
  {
  }

  lemma {:induction false} LeftBehindNewerThanInputs(files: seq<File>, left: seq<File>, in0: seq<File>)
    requires LeftBehindIsNewer(files, in0) && forall f :: f in left <==> f in files && f !in in0
    ensures Newer(EntriesOf(left), EntriesOf(in0))
  {
    forall x, y | x in EntriesOf(left) && y in EntriesOf(in0) && x.key.user == y.key.user
      ensures x.key.sequence > y.key.sequence
    {
      var f :| f in left && x in f.entries;
      var g :| g in in0 && y in g.entries;
      assert x in SetOf(f.entries) && y in SetOf(g.entries);
    }
  }

  lemma {:induction false} ReplacedSorted(levels: Levels, after: Levels, n: nat, in0: seq<File>, in1: seq<File>,
      outs: seq<File>, l: nat)
    requires n + 1 < NUM_LEVELS && Replaced(levels, after, n, in0, in1, outs)
    requires OutputsOk(levels, n, in0, in1, outs)
    requires 1 <= l < NUM_LEVELS && LevelSorted(levels[l])
    ensures LevelSorted(after[l])
  {
    hide LevelSorted, InOrder;
    SortedIsInOrder(levels[l]);
    forall f, g | f in after[l] && g in after[l] && f != g ensures RangesDisjoint(f, g) {
      if l == n + 1 && f in outs && g !in outs {
        assert g in levels[n + 1] && g !in in1;
      } else if l == n + 1 && f !in outs && g in outs {
        assert f in levels[n + 1] && f !in in1;
        assert RangesDisjoint(g, f);
      }
    }
    DisjointInOrderIsSorted(after[l]);
  }

  lemma {:induction false} ReplacedAllEntries(levels: Levels, after: Levels, n: nat, in0: seq<File>, in1: seq<File>,
      outs: seq<File>)
    requires n + 1 < NUM_LEVELS && Replaced(levels, after, n, in0, in1, outs)
    requires (forall f | f in in0 :: f in levels[n]) && (forall f | f in in1 :: f in levels[n + 1])
    requires OutputsOk(levels, n, in0, in1, outs)
    ensures AllEntries(after, 0) <= AllEntries(levels, 0)
  {
    hide OutputsOk, InOrder, EntriesOf;
    ReplacedEntries(levels, after, n, in0, in1, outs);
    forall l, e | 0 <= l < NUM_LEVELS && e in EntriesOf(after[l]) ensures e in AllEntries(levels, 0) {
      if l == n + 1 {
        assert e in EntriesOf(levels[n + 1]) || e in EntriesOf(levels[n]);
      } else {
        assert e in EntriesOf(levels[l]);
      }
    }
  }

  lemma {:induction false} ReplacedLevel0(levels: Levels, after: Levels, n: nat, in0: seq<File>, in1: seq<File>,
      outs: seq<File>)
    requires n + 1 < NUM_LEVELS && Replaced(levels, after, n, in0, in1, outs)
    requires HigherNumberIsNewer(levels[0])
    ensures HigherNumberIsNewer(after[0])
  {
    hide InOrder;
    assert forall f | f in after[0] :: f in levels[0];
  }

  lemma {:induction false} ReplacedVersionOk(levels: Levels, after: Levels, n: nat, in0: seq<File>, in1: seq<File>,
      outs: seq<File>)
    requires n + 1 < NUM_LEVELS && Replaced(levels, after, n, in0, in1, outs)
    requires (forall f | f in in0 :: f in levels[n]) && (forall f | f in in1 :: f in levels[n + 1])
    requires OutputsOk(levels, n, in0, in1, outs) && LeftBehindIsNewer(levels[n], in0)
    requires VersionOk(levels) && DistinctNumbers(after[0])
    ensures VersionOk(after)
    ensures AllEntries(after, 0) <= AllEntries(levels, 0)
  {
    hide LeftBehindIsNewer, OutputsOk, InOrder, LevelSorted, Replaced, EntriesOf, AllEntries, Newer,
        HigherNumberIsNewer;
    ReplacedAges(levels, after, n, in0, in1, outs);
    forall l | 1 <= l < NUM_LEVELS ensures LevelSorted(after[l]) {
      ReplacedSorted(levels, after, n, in0, in1, outs, l);
    }
    ReplacedAllEntries(levels, after, n, in0, in1, outs);
    ReplacedLevel0(levels, after, n, in0, in1, outs);
  }

  // ---------- What a compaction writes ----------

  lemma {:induction false} EntriesOfBoth(a: seq<File>, b: seq<File>)
    ensures EntriesOf(a + b) == EntriesOf(a) + EntriesOf(b)
  {
  }

  ghost predicate AllPast(g: File, es: set<Entry>) {
    forall e | e in es :: Less(Largest(g), e.key)
  }

  ghost predicate AllBefore(es: set<Entry>, g: File) {
    forall e | e in es :: Less(e.key, Smallest(g))
  }

  lemma {:induction false} PastTheUpperInputs(in0: seq<File>, g: File)
    requires in0 != []
    ensures Largest(g).user < MinUser(in0) ==> AllPast(g, EntriesOf(in0))
    ensures MaxUser(in0) < Smallest(g).user ==> AllBefore(EntriesOf(in0), g)
  {
    hide MinUser, MaxUser, Sorted;
    forall e | e in EntriesOf(in0) ensures MinUser(in0) <= e.key.user <= MaxUser(in0) {
      var f :| f in in0 && e in f.entries;
      EntriesWithinHull(in0, f, e);
    }
  }

  lemma {:induction false} PastTheLowerInputs(files: seq<File>, lo: UserKey, hi: UserKey, g: File)
    requires LevelSorted(files) && g in files
    ensures Largest(g).user < lo ==> AllPast(g, EntriesOf(Overlapping(files, Some(lo), Some(hi))))
    ensures hi < Smallest(g).user ==> AllBefore(EntriesOf(Overlapping(files, Some(lo), Some(hi))), g)
  {
    hide LevelSorted, Sorted, Overlapping, Less;
    SortedIsInOrder(files);
    forall e | e in EntriesOf(Overlapping(files, Some(lo), Some(hi)))
      ensures Largest(g).user < lo ==> Less(Largest(g), e.key)
      ensures hi < Smallest(g).user ==> Less(e.key, Smallest(g))
    {
      var h :| h in Overlapping(files, Some(lo), Some(hi)) && e in h.entries;
      OverlappingHolds(files, Some(lo), Some(hi), h);
      PastOneFile(g, h, e, lo, hi);
    }
  }

  lemma {:induction false} PastOneFile(g: File, h: File, e: Entry, lo: UserKey, hi: UserKey)
    requires Overlaps(h, Some(lo), Some(hi)) && e in h.entries
    requires h != g ==> RangesDisjoint(h, g)
    ensures Largest(g).user < lo ==> Less(Largest(g), e.key)
    ensures hi < Smallest(g).user ==> Less(e.key, Smallest(g))
  {
    EntryWithinFile(h, e);
    EntryWithinFile(g, g.entries[0]);
  }

  /** A file left at the output level lies before all inputs or past all of them. */
  lemma {:induction false} LeftOutIsClear(levels: Levels, n: nat, in0: seq<File>, in1: seq<File>, g: File)
    requires n + 1 < NUM_LEVELS && InputsOk(levels, n, in0, in1) && LevelSorted(levels[n + 1])
    requires g in levels[n + 1] && g !in in1
    ensures AllPast(g, EntriesOf(in0 + in1)) || AllBefore(EntriesOf(in0 + in1), g)
  {
    hide LevelSorted, Sorted, Overlapping, MinUser, MaxUser, LeftBehindIsNewer, Less;
    var lo, hi := MinUser(in0), MaxUser(in0);
    OverlappingHolds(levels[n + 1], Some(lo), Some(hi), g);
    PastTheUpperInputs(in0, g);
    PastTheLowerInputs(levels[n + 1], lo, hi, g);
    EntriesOfBoth(in0, in1);
  }

  lemma {:induction false} SurvivorsSorted(levels: Levels, level: nat, input: seq<Entry>, n: nat,
      smallest: SequenceNumber)
    requires Sorted(input) && n <= |input|
    ensures Sorted(Survivors(levels, level, input, n, smallest))
    ensures forall j | 0 <= j < |Survivors(levels, level, input, n, smallest)| ::
              exists i | 0 <= i < n :: input[i] == Survivors(levels, level, input, n, smallest)[j]
  {
    hide Dropped, Less;
    if n > 0 {
      SurvivorsSorted(levels, level, input, n - 1, smallest);
    }
  }

  /** Files cut from a sorted run are pairwise disjoint, and hold just its entries. */
  lemma {:induction false} CutFilesDisjoint(outs: seq<File>)
    requires Sorted(Written(outs))
    ensures forall f, g | f in outs && g in outs && f != g :: RangesDisjoint(f, g)
    ensures SetOf(Written(outs)) == EntriesOf(outs)
  {
    if outs != [] {
      var front, last := outs[..|outs| - 1], outs[|outs| - 1];
      assert outs == front + [last];
      assert Written(outs)[..|Written(front)|] == Written(front);
      CutFilesDisjoint(front);
      CutFromLast(front, last);
    }
  }

  lemma {:induction false} CutFromLast(front: seq<File>, last: File)
    requires Sorted(Written(front) + last.entries) && SetOf(Written(front)) == EntriesOf(front)
    ensures forall f | f in front :: Less(Largest(f), Smallest(last))
    ensures SetOf(Written(front) + last.entries) == EntriesOf(front + [last])
  {
    EntriesOfBoth(front, [last]);
    forall f | f in front ensures Less(Largest(f), Smallest(last)) {
      var e := f.entries[|f.entries| - 1];
      assert e in f.entries;
      assert e in EntriesOf(front) && e in SetOf(Written(front));
      var i :| 0 <= i < |Written(front)| && Written(front)[i] == e;
      var all := Written(front) + last.entries;
      assert all[i] == e && all[|Written(front)|] == last.entries[0];
    }
  }

  /** The files a compaction writes may replace its inputs. */
  lemma {:induction false} CompactionOutputsOk(levels: Levels, n: nat, in0: seq<File>, in1: seq<File>, outs: seq<File>)
    requires n + 1 < NUM_LEVELS && InputsOk(levels, n, in0, in1) && LevelSorted(levels[n + 1])
    requires Sorted(Written(outs)) && SetOf(Written(outs)) <= EntriesOf(in0 + in1)
    ensures OutputsOk(levels, n, in0, in1, outs)
  {
    hide LevelSorted, Sorted, InputsOk, Written, Less, Smallest, Largest;
    CutFilesDisjoint(outs);
    EntriesOfBoth(in0, in1);
    forall f | f in outs ensures SetOf(f.entries) <= EntriesOf(in0) + EntriesOf(in1) {
      assert forall e | e in f.entries :: e in EntriesOf(outs);
    }
    forall f, g | f in outs && g in levels[n + 1] && g !in in1 ensures RangesDisjoint(f, g) {
      LeftOutIsClear(levels, n, in0, in1, g);
      ClearFilesDisjoint(f, g, EntriesOf(in0 + in1));
    }
  }

  lemma {:induction false} ClearFilesDisjoint(f: File, g: File, es: set<Entry>)
    requires SetOf(f.entries) <= es && (AllPast(g, es) || AllBefore(es, g))
    ensures RangesDisjoint(f, g)
  {
    assert f.entries[0] in SetOf(f.entries) && f.entries[|f.entries| - 1] in SetOf(f.entries);
  }

  lemma {:induction false} MoveOutputsOk(levels: Levels, n: nat, f: File)
    requires n + 1 < NUM_LEVELS && InputsOk(levels, n, [f], []) && LevelSorted(levels[n + 1])
    ensures OutputsOk(levels, n, [f], [], [f])
  {
    hide LevelSorted, InputsOk;
    assert Written([f]) == f.entries by {
      assert [f][..0] == [] && Written([]) == [];
      assert [] + f.entries == f.entries;
    }
    assert [f] + [] == [f];
    CutFilesDisjoint([f]);
    CompactionOutputsOk(levels, n, [f], [], [f]);
  }

  // ---------- File numbers ----------

  lemma {:induction false} NumbersDistinctInLevel(levels: Levels, nextFile: nat, l: nat)
    requires FilesOk(levels, nextFile) && l < NUM_LEVELS
    ensures DistinctNumbers(levels[l])
  {
    forall i, j | 0 <= i < j < |levels[l]| ensures levels[l][i].number != levels[l][j].number {
      assert InOrder(levels[l]);
      assert BySmallestKey(levels[l][i], levels[l][j]);
    }
  }

  lemma {:induction false} ReplacedFilesOk(levels: Levels, after: Levels, n: nat, in0: seq<File>, in1: seq<File>,
      outs: seq<File>, nextFile: nat, nextFile': nat)
    requires n + 1 < NUM_LEVELS && FilesOk(levels, nextFile) && nextFile <= nextFile'
    requires Replaced(levels, after, n, in0, in1, outs)
    requires forall f | f in outs :: f.number < nextFile'
    requires forall f, g | f in outs && g in outs && f.number == g.number :: f == g
    requires forall f, l, g | f in outs && 0 <= l < NUM_LEVELS && g in levels[l] && g.number == f.number ::
        l == n && g in in0
    ensures FilesOk(after, nextFile')
    ensures DistinctNumbers(after[0])
  {
    hide InOrder;
    forall l, m, f, g | 0 <= l < NUM_LEVELS && 0 <= m < NUM_LEVELS && f in after[l] && g in after[m]
        && f.number == g.number
      ensures l == m && f == g
    {
      assert (l == n + 1 && f in outs) || (f in levels[l] && (l == n ==> f !in in0));
      assert (m == n + 1 && g in outs) || (g in levels[m] && (m == n ==> g !in in0));
    }
    forall l, f | 0 <= l < NUM_LEVELS && f in after[l] ensures f.number < nextFile' {
      assert (l == n + 1 && f in outs) || f in levels[l];
    }
    NumbersDistinctInLevel(after, nextFile', 0);
  }

  // ---------- Compaction and trivial move ----------

  lemma {:induction false} CompactionAdds(n: nat, in0: seq<File>, in1: seq<File>, outs: seq<File>)
    ensures forall a :: a in CompactionEdit(n, in0, in1, outs).added <==> a.0 == n + 1 && a.1 in outs
  {
    var e := CompactionEdit(n, in0, in1, outs);
    forall a ensures a in e.added <==> a.0 == n + 1 && a.1 in outs {
      if a.0 == n + 1 && a.1 in outs {
        var i :| 0 <= i < |outs| && outs[i] == a.1;
        assert e.added[i] == a;
      }
    }
  }

  /** Output numbers are fresh, so nothing added is in use or deleted. */
  lemma {:induction false} FreshAdds(levels: Levels, l: nat, e: Edit, nextFile: nat)
    requires l < NUM_LEVELS && FilesOk(levels, nextFile)
    requires forall d | d in e.deleted :: d.1 < nextFile
    requires forall i | 0 <= i < |e.added| :: nextFile <= e.added[i].1.number
    requires forall i, j | 0 <= i < j < |e.added| :: e.added[i].1.number < e.added[j].1.number
    ensures AddsFresh(levels[l], e, l)
  {
    hide InOrder;
  }

  lemma {:induction false} CompactionExchanges(levels: Levels, n: nat, in0: seq<File>, in1: seq<File>, outs: seq<File>,
      nextFile: nat)
    requires n + 1 < NUM_LEVELS && InputsOk(levels, n, in0, in1) && FilesOk(levels, nextFile)
    requires FreshNumbers(outs, nextFile)
    ensures Exchanges(levels, n, in0, in1, outs, CompactionEdit(n, in0, in1, outs))
  {
    hide InOrder, LeftBehindIsNewer, MinUser, MaxUser, Overlapping, AddsFresh;
    LowerInputsAreFiles(levels, n, in0, in1);
    CompactionAdds(n, in0, in1, outs);
    FreshAdds(levels, n + 1, CompactionEdit(n, in0, in1, outs), nextFile);
  }

  lemma {:induction false} LowerInputsAreFiles(levels: Levels, n: nat, in0: seq<File>, in1: seq<File>)
    requires n + 1 < NUM_LEVELS && InputsOk(levels, n, in0, in1)
    ensures forall f | f in in1 :: f in levels[n + 1]
  {
    forall f | f in in1 ensures f in levels[n + 1] {
      OverlappingHolds(levels[n + 1], Some(MinUser(in0)), Some(MaxUser(in0)), f);
    }
  }

  lemma {:induction false} CompactedVersion(levels: Levels, nextFile: nat, n: nat, in0: seq<File>, in1: seq<File>,
      outs: seq<File>)
    requires n + 1 < NUM_LEVELS && InputsOk(levels, n, in0, in1) && FilesOk(levels, nextFile) && VersionOk(levels)
    requires FreshNumbers(outs, nextFile)
    requires Sorted(Written(outs)) && SetOf(Written(outs)) <= EntriesOf(in0 + in1)
    ensures var after := Edited(levels, CompactionEdit(n, in0, in1, outs));
            && VersionOk(after) && FilesOk(after, NextNumber(outs, nextFile))
            && Replaced(levels, after, n, in0, in1, outs)
            && AllEntries(after, 0) <= AllEntries(levels, 0)
  {
    hide Edited, CompactionEdit, Exchanges, FilesOk, Replaced, OutputsOk, Sorted, Written, LevelSorted,
         VersionOk, LeftBehindIsNewer, Overlapping, EntriesOf, AllEntries;
    var after := Edited(levels, CompactionEdit(n, in0, in1, outs));
    CompactionExchanges(levels, n, in0, in1, outs, nextFile);
    EditReplaces(levels, nextFile, n, in0, in1, outs, CompactionEdit(n, in0, in1, outs));
    VersionSorted(levels, n + 1);
    CompactionOutputsOk(levels, n, in0, in1, outs);
    LowerInputsAreFiles(levels, n, in0, in1);
    NumbersAreFresh(levels, nextFile);
    ReplacedFilesOk(levels, after, n, in0, in1, outs, nextFile, NextNumber(outs, nextFile));
    ReplacedVersionOk(levels, after, n, in0, in1, outs);
  }

  lemma {:induction false} NumbersAreFresh(levels: Levels, nextFile: nat)
    requires FilesOk(levels, nextFile)
    ensures forall l, f | 0 <= l < NUM_LEVELS && f in levels[l] :: f.number < nextFile
  {
  }

  lemma {:induction false} MovedVersion(levels: Levels, nextFile: nat, n: nat, f: File)
    requires n + 1 < NUM_LEVELS && InputsOk(levels, n, [f], []) && FilesOk(levels, nextFile) && VersionOk(levels)
    ensures var after := Edited(levels, MoveEdit(n, f));
            && VersionOk(after) && FilesOk(after, nextFile)
            && Replaced(levels, after, n, [f], [], [f])
            && AllEntries(after, 0) == AllEntries(levels, 0)
  {
    hide Edited, OutputsOk, LevelSorted, LeftBehindIsNewer, Overlapping, InOrder, MoveEdit, Exchanges, Replaced,
        VersionOk;
    var after := Edited(levels, MoveEdit(n, f));
    assert f in [f] && f in levels[n];
    MoveExchanges(levels, nextFile, n, f);
    EditReplaces(levels, nextFile, n, [f], [], [f], MoveEdit(n, f));
    MoveOutputsOk(levels, n, f) by { VersionSorted(levels, n + 1); }
    ReplacedFilesOk(levels, after, n, [f], [], [f], nextFile, nextFile);
    ReplacedVersionOk(levels, after, n, [f], [], [f]);
    MovedKeepsEntries(levels, after, n, f);
  }

  lemma {:induction false} VersionSorted(levels: Levels, l: nat)
    requires VersionOk(levels) && 1 <= l < NUM_LEVELS
    ensures LevelSorted(levels[l])
  {
  }

  lemma {:induction false} MoveExchanges(levels: Levels, nextFile: nat, n: nat, f: File)
    requires n + 1 < NUM_LEVELS && FilesOk(levels, nextFile) && f in levels[n]
    ensures Exchanges(levels, n, [f], [], [f], MoveEdit(n, f))
  {
    hide InOrder;
    assert MoveEdit(n, f).deleted == InputDeletions(n, [f]) + InputDeletions(n + 1, []);
  }

  lemma {:induction false} MovedKeepsEntries(levels: Levels, after: Levels, n: nat, f: File)
    requires n + 1 < NUM_LEVELS && Replaced(levels, after, n, [f], [], [f])
    ensures AllEntries(levels, 0) <= AllEntries(after, 0)
  {
    hide InOrder;
    forall l, e | 0 <= l < NUM_LEVELS && e in EntriesOf(levels[l]) ensures e in AllEntries(after, 0) {
      var g :| g in levels[l] && e in g.entries;
      if l == n && g == f {
        assert g in after[n + 1] && e in EntriesOf(after[n + 1]);
      } else {
        assert g in after[l] && e in EntriesOf(after[l]);
      }
    }
  }

  // ---------- Flushing a memtable ----------

  lemma {:induction false} FlushedLevels(levels: Levels, nextFile: nat, level: nat, f: File)
    requires level < NUM_LEVELS && FilesOk(levels, nextFile) && f.number >= nextFile
    ensures var after := Edited(levels, FlushEdit(level, f));
            && (forall l | 0 <= l < NUM_LEVELS && l != level :: after[l] == levels[l])
            && InOrder(after[level]) && forall g :: g in after[level] <==> g in levels[level] || g == f
  {
    hide Edited;
    var e := FlushEdit(level, f);
    forall l | 0 <= l < NUM_LEVELS && l != level ensures Edited(levels, e)[l] == levels[l] {
      hide InOrder;
      UntouchedLevel(levels, e, l);
    }
    EditHolds(levels, e, level);
  }

  lemma {:induction false} NoSharedUser(levels: Levels, l: nat, f: File)
    requires l < NUM_LEVELS && NoOverlap(levels[l], Smallest(f).user, Largest(f).user)
    ensures forall x, y | x in EntriesOf(levels[l]) && y in f.entries :: x.key.user != y.key.user
    ensures forall g | g in levels[l] :: RangesDisjoint(f, g)
  {
    forall x, y | x in EntriesOf(levels[l]) && y in f.entries ensures x.key.user != y.key.user {
      var g :| g in levels[l] && x in g.entries;
      EntryWithinFile(g, x);
      EntryWithinFile(f, y);
    }
  }

  lemma {:induction false} FlushedEntries(levels: Levels, after: Levels, level: nat, f: File)
    requires level < NUM_LEVELS && (forall l | 0 <= l < NUM_LEVELS && l != level :: after[l] == levels[l])
    requires forall g :: g in after[level] <==> g in levels[level] || g == f
    ensures EntriesOf(after[level]) == EntriesOf(levels[level]) + SetOf(f.entries)
    ensures AllEntries(after, 0) == AllEntries(levels, 0) + SetOf(f.entries)
  {
    var here := EntriesOf(levels[level]) + SetOf(f.entries);
    forall e ensures e in EntriesOf(after[level]) <==> e in here {
      if e in EntriesOf(levels[level]) {
        var g :| g in levels[level] && e in g.entries;
        assert g in after[level];
      }
      if e in f.entries {
        assert f in after[level];
      }
    }
    var all := AllEntries(levels, 0) + SetOf(f.entries);
    forall e ensures e in AllEntries(after, 0) <==> e in all {
      hide EntriesOf;
      if e in SetOf(f.entries) {
        assert e in EntriesOf(after[level]);
      }
      if e in AllEntries(levels, 0) {
        var l :| 0 <= l < NUM_LEVELS && e in EntriesOf(levels[l]);
        assert e in EntriesOf(after[l]);
      }
    }
  }

  lemma {:induction false} FlushedSorted(levels: Levels, after: Levels, level: nat, f: File)
    requires 1 <= level < NUM_LEVELS && LevelSorted(levels[level])
    requires InOrder(after[level]) && forall g :: g in after[level] <==> g in levels[level] || g == f
    requires forall g | g in levels[level] :: RangesDisjoint(f, g)
    ensures LevelSorted(after[level])
  {
    hide LevelSorted, InOrder;
    SortedIsInOrder(levels[level]);
    forall a, b | a in after[level] && b in after[level] && a != b ensures RangesDisjoint(a, b) {
      assert a == f || a in levels[level];
      assert b == f || b in levels[level];
      assert a == f ==> RangesDisjoint(f, b);
      assert b == f ==> RangesDisjoint(f, a);
    }
    DisjointInOrderIsSorted(after[level]);
  }

  lemma {:induction false} FlushedAges(levels: Levels, after: Levels, level: nat, f: File)
    requires level < NUM_LEVELS && (forall l | 0 <= l < NUM_LEVELS && l != level :: after[l] == levels[l])
    requires EntriesOf(after[level]) == EntriesOf(levels[level]) + SetOf(f.entries)
    requires Newer(SetOf(f.entries), AllEntries(levels, 0))
    requires level > 0 ==> forall l | 0 <= l <= level :: NoOverlap(levels[l], Smallest(f).user, Largest(f).user)
    requires forall l, m :: 0 <= l < m < NUM_LEVELS ==> Newer(EntriesOf(levels[l]), EntriesOf(levels[m]))
    ensures forall l, m :: 0 <= l < m < NUM_LEVELS ==> Newer(EntriesOf(after[l]), EntriesOf(after[m]))
  {
    hide EntriesOf;
    forall l, m | 0 <= l < m < NUM_LEVELS ensures Newer(EntriesOf(after[l]), EntriesOf(after[m])) {
      assert Newer(EntriesOf(levels[l]), EntriesOf(levels[m]));
      if m == level {
        NoSharedUser(levels, l, f);
      } else if l == level {
        assert EntriesOf(levels[m]) <= AllEntries(levels, 0);
      }
    }
  }

  lemma {:induction false} FlushedLevel0(levels: Levels, after: Levels, nextFile: nat, f: File)
    requires FilesOk(levels, nextFile) && f.number >= nextFile && HigherNumberIsNewer(levels[0])
    requires forall g :: g in after[0] ==> g in levels[0] || g == f
    requires Newer(SetOf(f.entries), AllEntries(levels, 0))
    ensures HigherNumberIsNewer(after[0])
  {
    hide InOrder;
    forall a, b | a in after[0] && b in after[0] && a.number > b.number
      ensures Newer(SetOf(a.entries), SetOf(b.entries))
    {
      if a == f {
        forall e | e in SetOf(b.entries) ensures e in AllEntries(levels, 0) {
          assert e in EntriesOf(levels[0]);
        }
      }
    }
  }

  lemma {:induction false} FlushedFilesOk(levels: Levels, after: Levels, nextFile: nat, level: nat, f: File)
    requires level < NUM_LEVELS && FilesOk(levels, nextFile) && f.number >= nextFile
    requires (forall l | 0 <= l < NUM_LEVELS && l != level :: after[l] == levels[l])
    requires InOrder(after[level]) && forall g :: g in after[level] <==> g in levels[level] || g == f
    ensures FilesOk(after, f.number + 1)
  {
    forall l | 0 <= l < NUM_LEVELS ensures InOrder(after[l]) {
      assert l != level ==> after[l] == levels[l];
    }
    hide InOrder;
    forall l, g | 0 <= l < NUM_LEVELS && g in after[l] ensures g in levels[l] || (l == level && g == f) {
    }
  }

  lemma {:induction false} FlushedVersion(levels: Levels, nextFile: nat, level: nat, f: File)
    requires level < NUM_LEVELS && FilesOk(levels, nextFile) && VersionOk(levels) && f.number >= nextFile
    requires Newer(SetOf(f.entries), AllEntries(levels, 0))
    requires Distinct(AllEntries(levels, 0) + SetOf(f.entries))
    requires level > 0 ==> forall l | 0 <= l <= level :: NoOverlap(levels[l], Smallest(f).user, Largest(f).user)
    ensures var after := Edited(levels, FlushEdit(level, f));
            && VersionOk(after) && FilesOk(after, f.number + 1)
            && AllEntries(after, 0) == AllEntries(levels, 0) + SetOf(f.entries)
  {
    hide Edited, FilesOk, LevelSorted, InOrder, EntriesOf, AllEntries, Newer, NoOverlap, HigherNumberIsNewer, Distinct,
        Sorted;
    var after := Edited(levels, FlushEdit(level, f));
    FlushedLevels(levels, nextFile, level, f);
    FlushedEntries(levels, after, level, f);
    FlushedAges(levels, after, level, f);
    FlushedLevel0(levels, after, nextFile, f);
    FlushedFilesOk(levels, after, nextFile, level, f);
    NumbersDistinctInLevel(after, f.number + 1, 0);
    forall l | 1 <= l < NUM_LEVELS ensures LevelSorted(after[l]) {
      if l == level {
        NoSharedUser(levels, level, f);
        FlushedSorted(levels, after, level, f);
      }
    }
  }
}
