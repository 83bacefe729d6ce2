/** Choosing the input files of a compaction. */
module CompactionInputs {
  import opened Format
  import opened Versions

  // ---------- Key ranges of sets of files ----------

  function MinSmallest(files: seq<File>): InternalKey
    requires files != []
  {
    var last := Smallest(files[|files| - 1]);
    if |files| == 1 then last
    else
      var k := MinSmallest(files[..|files| - 1]);
      if Less(last, k) then last else k
  }

  function MaxLargest(files: seq<File>): InternalKey
    requires files != []
  {
    var last := Largest(files[|files| - 1]);
    if |files| == 1 then last
    else
      var k := MaxLargest(files[..|files| - 1]);
      if Less(k, last) then last else k
  }

  lemma {:induction false} MaxLargestIsMax(files: seq<File>) returns (top: nat)
    requires files != []
    ensures top < |files| && MaxLargest(files) == Largest(files[top])
    ensures forall i | 0 <= i < |files| :: !Less(MaxLargest(files), Largest(files[i]))
  {
    hide Largest, Smallest;
    var n := |files| - 1;
    if n == 0 {
      top := 0;
    } else {
      top := MaxLargestIsMax(files[..n]);
      if Less(MaxLargest(files[..n]), Largest(files[n])) {
        top := n;
      }
      forall i | 0 <= i < |files| ensures !Less(MaxLargest(files), Largest(files[i])) {
        if i < n {
          assert files[i] == files[..n][i];
        }
      }
    }
  }

  lemma {:induction false} MinSmallestIsMin(files: seq<File>)
    requires files != []
    ensures forall i | 0 <= i < |files| :: !Less(Smallest(files[i]), MinSmallest(files))
  {
    hide Largest, Smallest;
    var n := |files| - 1;
    if n > 0 {
      MinSmallestIsMin(files[..n]);
      forall i | 0 <= i < |files| ensures !Less(Smallest(files[i]), MinSmallest(files)) {
        if i < n {
          assert files[i] == files[..n][i];
        }
      }
    }
  }

  method GetRange(inputs: seq<File>) returns (smallest: InternalKey, largest: InternalKey)
    requires inputs != []
    ensures smallest == MinSmallest(inputs) && largest == MaxLargest(inputs)
  {
    hide Sorted, Smallest, Largest, Less;
    smallest, largest := Smallest(inputs[0]), Largest(inputs[0]);
    assert inputs[..1] == [inputs[0]];
    for i := 1 to |inputs|
      invariant smallest == MinSmallest(inputs[..i]) && largest == MaxLargest(inputs[..i])
    {
      assert inputs[..i + 1][..i] == inputs[..i];
      if Compare(Smallest(inputs[i]), smallest) < 0 {
        smallest := Smallest(inputs[i]);
      }
      if Compare(Largest(inputs[i]), largest) > 0 {
        largest := Largest(inputs[i]);
      }
    }
    assert inputs[..|inputs|] == inputs;
  }

  function MinUser(files: seq<File>): UserKey
    requires files != []
  {
    MinSmallest(files).user
  }

  function MaxUser(files: seq<File>): UserKey
    requires files != []
  {
    MaxLargest(files).user
  }

  lemma {:induction false} EntriesWithinHull(files: seq<File>, f: File, e: Entry)
    requires f in files && e in f.entries
    ensures MinUser(files) <= Smallest(f).user <= e.key.user <= Largest(f).user <= MaxUser(files)
    ensures !Less(MaxLargest(files), e.key)
  {
    hide MinSmallest, MaxLargest;
    EntryWithinFile(f, e);
    MinSmallestIsMin(files);
    var _ := MaxLargestIsMax(files);
  }

  // ---------- Boundary files ----------

  predicate IsBoundary(f: File, key: InternalKey) {
    Less(key, Smallest(f)) && Smallest(f).user == key.user
  }

  /** The first file, by smallest key, that starts past `key` within the same user key. */
  function NextBoundary(files: seq<File>, key: InternalKey): (r: Option<File>)
    ensures r.Some? ==> IsBoundary(r.value, key)
  {
    if files == [] then None
    else
      var last := files[|files| - 1];
      var r := NextBoundary(files[..|files| - 1], key);
      if IsBoundary(last, key) && (r.None? || Less(Smallest(last), Smallest(r.value))) then Some(last) else r
  }

  lemma {:induction false} NextBoundaryIsFirst(files: seq<File>, key: InternalKey) returns (at: nat)
    ensures NextBoundary(files, key).None? ==> forall i | 0 <= i < |files| :: !IsBoundary(files[i], key)
    ensures NextBoundary(files, key).Some? ==>
              && at < |files| && files[at] == NextBoundary(files, key).value && IsBoundary(files[at], key)
              && forall i | 0 <= i < |files| && IsBoundary(files[i], key) ::
                  !Less(Smallest(files[i]), Smallest(files[at]))
  {
    hide Smallest;
    at := 0;
    if files != [] {
      var n := |files| - 1;
      at := NextBoundaryIsFirst(files[..n], key);
      var r := NextBoundary(files[..n], key);
      if IsBoundary(files[n], key) && (r.None? || Less(Smallest(files[n]), Smallest(r.value))) {
        at := n;
      }
      assert forall i | 0 <= i < n :: files[..n][i] == files[i];
    }
  }

  method FindSmallestBoundaryFile(files: seq<File>, key: InternalKey) returns (r: Option<File>)
    ensures r == NextBoundary(files, key)
  {
    r := None;
    for i := 0 to |files|
      invariant r == NextBoundary(files[..i], key)
    {
      assert files[..i + 1][..i] == files[..i];
      var f := files[i];
      if Compare(Smallest(f), key) > 0 && Smallest(f).user == key.user {
        if r.None? || Compare(Smallest(f), Smallest(r.value)) < 0 {
          r := Some(f);
        }
      }
    }
    assert files[..|files|] == files;
  }

  ghost function StartingPast(files: seq<File>, key: InternalKey): set<File> {
    set f | f in files && Less(key, Smallest(f))
  }

  lemma {:induction false} BoundaryProgress(files: seq<File>, key: InternalKey)
    requires NextBoundary(files, key).Some?
    ensures StartingPast(files, Largest(NextBoundary(files, key).value)) < StartingPast(files, key)
  {
    hide NextBoundary, Sorted;
    var at := NextBoundaryIsFirst(files, key);
    var f := files[at];
    EntryWithinFile(f, f.entries[0]);
    assert f in StartingPast(files, key) && f !in StartingPast(files, Largest(f));
  }

  /** The chain of boundary files past `key`. */
  function BoundaryChain(files: seq<File>, key: InternalKey): seq<File>
    decreases StartingPast(files, key)
  {
    var next := NextBoundary(files, key);
    if next.None? then []
    else
      BoundaryProgress(files, key);
      [next.value] + BoundaryChain(files, Largest(next.value))
  }

  method AddBoundaryInputs(levelFiles: seq<File>, compactionFiles: seq<File>) returns (r: seq<File>)
    ensures compactionFiles == [] ==> r == []
    ensures compactionFiles != [] ==> r == compactionFiles + BoundaryChain(levelFiles, MaxLargest(compactionFiles))
  {
    r := compactionFiles;
    if compactionFiles == [] {
      return;
    }
    var _, largestKey := GetRange(compactionFiles);
    var continueSearching := true;
    while continueSearching
      invariant continueSearching ==>
                  compactionFiles + BoundaryChain(levelFiles, MaxLargest(compactionFiles))
                      == r + BoundaryChain(levelFiles, largestKey)
      invariant !continueSearching ==> r == compactionFiles + BoundaryChain(levelFiles, MaxLargest(compactionFiles))
      decreases continueSearching, StartingPast(levelFiles, largestKey)
    {
      var boundary := FindSmallestBoundaryFile(levelFiles, largestKey);
      if boundary.Some? {
        BoundaryProgress(levelFiles, largestKey);
        r := r + [boundary.value];
        largestKey := Largest(boundary.value);
      } else {
        continueSearching := false;
      }
    }
  }

  // ---------- Which files may be compacted away from a level ----------

  /** Every file left behind is newer than every input, on the user keys they share. */
  ghost predicate LeftBehindIsNewer(files: seq<File>, inputs: seq<File>) {
    forall f, g | f in files && f !in inputs && g in inputs :: Newer(SetOf(f.entries), SetOf(g.entries))
  }

  /** What a compaction may start from: a run of a sorted level, or all of level 0 that overlaps
      a closed range. */
  ghost predicate Seed(level: nat, files: seq<File>, inputs: seq<File>) {
    && inputs != []
    && if level == 0 then exists lo: Option<UserKey>, hi: Option<UserKey> ::
        ClosedRange(files, lo, hi) && inputs == Overlapping(files, lo, hi)
       else exists lo: nat, hi: nat :: IsSlice(files, lo, hi, inputs)
  }

  ghost predicate IsSlice(files: seq<File>, lo: nat, hi: nat, inputs: seq<File>) {
    lo < hi <= |files| && inputs == files[lo..hi]
  }

  lemma {:induction false} RunMaxLargest(files: seq<File>, lo: nat, hi: nat, inputs: seq<File>)
    requires LevelSorted(files) && IsSlice(files, lo, hi, inputs)
    ensures MaxLargest(inputs) == Largest(files[hi - 1])
  {
    hide Sorted, MaxLargest, Largest;
    var top := MaxLargestIsMax(inputs);
    assert inputs[|inputs| - 1] == files[hi - 1];
    if top < |inputs| - 1 {
      LargestsIncrease(files, lo + top, hi - 1);
    }
  }

  /** In a sorted level the boundary chain extends a run, and stops where the user key changes. */
  lemma {:induction false} ChainExtendsRun(files: seq<File>, hi: nat) returns (end: nat)
    requires LevelSorted(files) && 0 < hi <= |files|
    ensures hi <= end <= |files| && BoundaryChain(files, Largest(files[hi - 1])) == files[hi..end]
    ensures end < |files| ==> Smallest(files[end]).user != Largest(files[end - 1]).user
    decreases |files| - hi
  {
    hide Sorted, LevelSorted, Smallest, Largest, Less, NextBoundary;
    var key := Largest(files[hi - 1]);
    var at := NextBoundaryIsFirst(files, key);
    if NextBoundary(files, key).None? {
      end := hi;
      if hi < |files| {
        NextFileStartsPast(files, hi);
      }
    } else {
      BoundaryIsNextFile(files, hi, at);
      end := ChainExtendsRun(files, hi + 1);
      assert files[hi..end] == [files[hi]] + files[hi + 1..end];
    }
  }

  lemma {:induction false} NextFileStartsPast(files: seq<File>, hi: nat)
    requires LevelSorted(files) && 0 < hi < |files|
    ensures Less(Largest(files[hi - 1]), Smallest(files[hi]))
  {
  }

  lemma {:induction false} EarlierIsNoBoundary(files: seq<File>, hi: nat, i: nat)
    requires LevelSorted(files) && i < hi <= |files|
    ensures !IsBoundary(files[i], Largest(files[hi - 1]))
  {
    EntryWithinFile(files[i], files[i].entries[0]);
    if i < hi - 1 {
      LargestsIncrease(files, i, hi - 1);
    }
  }

  lemma {:induction false} BoundaryIsNextFile(files: seq<File>, hi: nat, at: nat)
    requires LevelSorted(files) && 0 < hi <= |files| && at < |files|
    requires IsBoundary(files[at], Largest(files[hi - 1]))
    requires forall i | 0 <= i < |files| && IsBoundary(files[i], Largest(files[hi - 1])) ::
               !Less(Smallest(files[i]), Smallest(files[at]))
    ensures at == hi
  {
    if at < hi {
      EarlierIsNoBoundary(files, hi, at);
    } else if at > hi {
      LargestsIncrease(files, hi, at);
      NextFileStartsPast(files, hi);
    }
  }

  lemma {:induction false} RunHolds(files: seq<File>, lo: nat, hi: nat, inputs: seq<File>, i: nat)
    requires IsSlice(files, lo, hi, inputs)
    ensures lo <= i < hi ==> files[i] in inputs
  {
    if lo <= i < hi {
      assert inputs[i - lo] == files[i];
    }
  }

  lemma {:induction false} RunWithoutBoundaryLeavesNewer(files: seq<File>, lo: nat, hi: nat, inputs: seq<File>)
    requires LevelSorted(files) && IsSlice(files, lo, hi, inputs) && Distinct(EntriesOf(files))
    requires hi < |files| ==> Smallest(files[hi]).user != Largest(files[hi - 1]).user
    ensures LeftBehindIsNewer(files, inputs)
  {
    hide Sorted, LevelSorted, Less, Smallest, Largest, EntriesOf, Distinct;
    forall f, g, x, y | f in files && f !in inputs && g in inputs && x in SetOf(f.entries) && y in SetOf(g.entries)
                        && x.key.user == y.key.user
      ensures x.key.sequence > y.key.sequence
    {
      var i :| 0 <= i < |files| && files[i] == f;
      var k :| 0 <= k < |inputs| && inputs[k] == g;
      var j := lo + k;
      assert files[j] == g;
      RunHolds(files, lo, hi, inputs, i);
      if i >= hi {
        PastARunWithoutBoundary(files, j, hi, i, y, x);
      } else {
        EarlierFileIsNewer(files, i, j, x, y);
      }
    }
  }

  lemma {:induction false} EarlierFileIsNewer(files: seq<File>, i: nat, j: nat, x: Entry, y: Entry)
    requires LevelSorted(files) && Distinct(EntriesOf(files)) && i < j < |files|
    requires x in files[i].entries && y in files[j].entries && x.key.user == y.key.user
    ensures x.key.sequence > y.key.sequence
  {
    EntryWithinFile(files[i], x);
    EntryWithinFile(files[j], y);
    assert x in EntriesOf(files) && y in EntriesOf(files);
  }

  lemma {:induction false} PastARunWithoutBoundary(files: seq<File>, j: nat, hi: nat, i: nat, y: Entry, x: Entry)
    requires LevelSorted(files) && j < hi <= i < |files|
    requires Smallest(files[hi]).user != Largest(files[hi - 1]).user
    requires y in files[j].entries && x in files[i].entries
    ensures y.key.user < x.key.user
  {
    EntryWithinFile(files[j], y);
    EntryWithinFile(files[i], x);
    if j < hi - 1 { LargestsIncrease(files, j, hi - 1); }
    if hi < i { LargestsIncrease(files, hi, i); }
    NextFileStartsPast(files, hi);
  }

  /** At level 0 a closed selection has no boundary files and shares no key with what is left. */
  lemma {:induction false} ClosedSelectionAtLevel0(files: seq<File>, inputs: seq<File>)
    requires Seed(0, files, inputs)
    ensures BoundaryChain(files, MaxLargest(inputs)) == []
    ensures LeftBehindIsNewer(files, inputs)
  {
    hide Sorted, MaxLargest, Less, ClosedRange, Overlapping, IsBoundary, Smallest, Largest;
    var lo: Option<UserKey>, hi: Option<UserKey> :| ClosedRange(files, lo, hi) && inputs == Overlapping(files, lo, hi);
    var at := NextBoundaryIsFirst(files, MaxLargest(inputs));
    forall f | f in files ensures !IsBoundary(f, MaxLargest(inputs)) {
      NoBoundaryPastClosedRange(files, inputs, lo, hi, f);
    }
    forall f, g, x, y | f in files && f !in inputs && g in inputs && x in SetOf(f.entries) && y in SetOf(g.entries)
      ensures x.key.user != y.key.user
    {
      OutsideClosedRange(files, inputs, lo, hi, f, g, x, y);
    }
  }

  lemma {:induction false} NoBoundaryPastClosedRange(files: seq<File>, inputs: seq<File>, lo: Option<UserKey>,
      hi: Option<UserKey>, f: File)
    requires ClosedRange(files, lo, hi) && inputs == Overlapping(files, lo, hi) && inputs != [] && f in files
    ensures !IsBoundary(f, MaxLargest(inputs))
  {
    hide Sorted, MaxLargest, Overlapping;
    var i := MaxLargestIsMax(inputs);
    var top := inputs[i];
    OverlappingHolds(files, lo, hi, top);
    OverlappingHolds(files, lo, hi, f);
    EntryWithinFile(f, f.entries[0]);
    EntryWithinFile(top, top.entries[0]);
    assert f in inputs ==> !Less(MaxLargest(inputs), Largest(f));
  }

  lemma {:induction false} OutsideClosedRange(files: seq<File>, inputs: seq<File>, lo: Option<UserKey>,
      hi: Option<UserKey>, f: File, g: File, x: Entry, y: Entry)
    requires ClosedRange(files, lo, hi) && inputs == Overlapping(files, lo, hi)
    requires f in files && f !in inputs && g in inputs && x in f.entries && y in g.entries
    ensures x.key.user != y.key.user
  {
    hide Sorted, Overlapping, Less;
    OverlappingHolds(files, lo, hi, f);
    OverlappingHolds(files, lo, hi, g);
    EntryWithinFile(f, x);
    EntryWithinFile(g, y);
  }

  /** Boundary completion turns a seed into inputs that leave only newer entries behind. */
  lemma {:induction false} CompletedSeed(level: nat, files: seq<File>, seed: seq<File>)
    requires if level == 0 then DistinctNumbers(files) else LevelSorted(files) && Distinct(EntriesOf(files))
    requires Seed(level, files, seed)
    ensures seed != []
    ensures var inputs := seed + BoundaryChain(files, MaxLargest(seed));
            && LeftBehindIsNewer(files, inputs) && (forall f | f in inputs :: f in files)
            && if level == 0 then DistinctNumbers(inputs) else LevelSorted(inputs)
  {
    hide Sorted, LevelSorted, Overlapping, ClosedRange, MaxLargest, LeftBehindIsNewer, BoundaryChain, Distinct,
        EntriesOf, DistinctNumbers;
    if level == 0 {
      ClosedSelectionAtLevel0(files, seed);
      assert seed + [] == seed;
      var lo: Option<UserKey>, hi: Option<UserKey> :| ClosedRange(files, lo, hi) && seed == Overlapping(files, lo, hi);
      OverlappingDistinct(files, lo, hi);
      forall f | f in seed ensures f in files {
        OverlappingHolds(files, lo, hi, f);
      }
    } else {
      var lo: nat, hi: nat :| IsSlice(files, lo, hi, seed);
      RunMaxLargest(files, lo, hi, seed);
      var end := ChainExtendsRun(files, hi);
      var inputs := seed + BoundaryChain(files, MaxLargest(seed));
      assert inputs == files[lo..end];
      RunWithoutBoundaryLeavesNewer(files, lo, end, inputs);
      SliceSorted(files, lo, end);
    }
  }

  lemma {:induction false} SliceSorted(files: seq<File>, lo: nat, hi: nat)
    requires LevelSorted(files) && lo <= hi <= |files|
    ensures LevelSorted(files[lo..hi])
  {
    hide Sorted, Less;
  }

  lemma {:induction false} OverlappingDistinct(files: seq<File>, lo: Option<UserKey>, hi: Option<UserKey>)
    requires DistinctNumbers(files)
    ensures DistinctNumbers(Overlapping(files, lo, hi))
  {
    hide Overlaps, Sorted;
    if files != [] {
      var n := |files| - 1;
      var front := files[..n];
      OverlappingDistinct(front, lo, hi);
      var r := Overlapping(front, lo, hi);
      forall j | 0 <= j < |r| ensures r[j].number != files[n].number {
        OverlappingHolds(front, lo, hi, r[j]);
        var k :| 0 <= k < n && front[k] == r[j];
      }
    }
  }

  lemma {:induction false} RangesIncrease(files: seq<File>, i: nat, j: nat, a: Option<UserKey>, b: Option<UserKey>)
    requires LevelSorted(files) && i < j < |files|
    ensures BeforeFile(b, files[i]) ==> BeforeFile(b, files[j])
    ensures AfterFile(a, files[j]) ==> AfterFile(a, files[i])
  {
    LargestsIncrease(files, i, j);
  }

  lemma {:induction false} SliceOfFront<T>(s: seq<T>, lo: nat, hi: nat)
    requires lo <= hi <= |s| && s != []
    ensures hi < |s| ==> s[..|s| - 1][lo..hi] == s[lo..hi]
    ensures lo < hi == |s| ==> s[lo..hi] == s[..|s| - 1][lo..|s| - 1] + [s[|s| - 1]]
  {
  }

  lemma {:induction false} FilterIsSlice(files: seq<File>, a: Option<UserKey>, b: Option<UserKey>, lo: nat, hi: nat)
    requires lo <= hi <= |files|
    requires forall i | 0 <= i < |files| :: Overlaps(files[i], a, b) <==> lo <= i < hi
    ensures Overlapping(files, a, b) == files[lo..hi]
  {
    hide Overlaps, Sorted;
    if files != [] {
      var n := |files| - 1;
      var front := files[..n];
      assert forall i | 0 <= i < n :: front[i] == files[i];
      SliceOfFront(files, lo, hi);
      if hi <= n {
        FilterIsSlice(front, a, b, lo, hi);
      } else if lo <= n {
        FilterIsSlice(front, a, b, lo, n);
      } else {
        FilterIsSlice(front, a, b, n, n);
      }
    }
  }

  /** The overlapping files of a sorted level form a run. */
  lemma {:induction false} OverlappingIsRun(files: seq<File>, a: Option<UserKey>, b: Option<UserKey>)
      returns (lo: nat, hi: nat)
    requires LevelSorted(files)
    ensures lo <= hi <= |files| && Overlapping(files, a, b) == files[lo..hi]
  {
    hide Sorted, LevelSorted, AfterFile, BeforeFile, Overlapping;
    lo := 0;
    while lo < |files| && AfterFile(a, files[lo])
      invariant lo <= |files|
      invariant forall i | 0 <= i < lo :: AfterFile(a, files[i])
    {
      lo := lo + 1;
    }
    hi := lo;
    while hi < |files| && !BeforeFile(b, files[hi])
      invariant lo <= hi <= |files|
      invariant forall i | lo <= i < hi :: !BeforeFile(b, files[i])
    {
      hi := hi + 1;
    }
    forall i | 0 <= i < |files| ensures Overlaps(files[i], a, b) <==> lo <= i < hi {
      if lo < i {
        RangesIncrease(files, lo, i, a, b);
      }
      if hi < i {
        RangesIncrease(files, hi, i, a, b);
      }
    }
    FilterIsSlice(files, a, b, lo, hi);
  }

  // ---------- All inputs of a compaction ----------

  /** The files of two adjacent levels that a compaction replaces. */
  ghost predicate InputsOk(levels: Levels, level: nat, inputs0: seq<File>, inputs1: seq<File>)
    requires level + 1 < NUM_LEVELS
  {
    && inputs0 != [] && (forall f | f in inputs0 :: f in levels[level])
    && LeftBehindIsNewer(levels[level], inputs0)
    && (if level == 0 then DistinctNumbers(inputs0) else LevelSorted(inputs0))
    && inputs1 == Overlapping(levels[level + 1], Some(MinUser(inputs0)), Some(MaxUser(inputs0)))
  }

  /** A range selection of a level that is not empty can seed a compaction. */
  lemma {:induction false} SelectionIsSeed(level: nat, files: seq<File>, begin: Option<UserKey>, end: Option<UserKey>,
      r: seq<File>)
    requires level > 0 ==> LevelSorted(files)
    requires r != [] && IsSelection(level, files, begin, end, r)
    ensures Seed(level, files, r)
  {
    if level > 0 {
      var lo, hi := OverlappingIsRun(files, begin, end);
      assert IsSlice(files, lo, hi, r);
    }
  }

  /** A selection around a range contains every file overlapping it. */
  lemma {:induction false} SelectionCovers(level: nat, files: seq<File>, begin: Option<UserKey>, end: Option<UserKey>,
      r: seq<File>, f: File)
    requires IsSelection(level, files, begin, end, r)
    requires f in files && Overlaps(f, begin, end)
    ensures f in r
  {
    hide Overlapping, ClosedRange, InEveryClosedRange;
    if level == 0 {
      var lo, hi :| LeastClosedRange(files, begin, end, lo, hi) && r == Overlapping(files, lo, hi);
      OverlappingHolds(files, lo, hi, f);
    } else {
      OverlappingHolds(files, begin, end, f);
    }
  }

  /** Taking more of the upper level: everything already chosen is chosen again. */
  lemma {:induction false} ExpansionIsSeed(level: nat, files: seq<File>, inputs0: seq<File>, inputs1: seq<File>,
      r: seq<File>)
    requires level > 0 ==> LevelSorted(files)
    requires inputs0 != [] && forall f | f in inputs0 :: f in files
    requires IsSelection(level, files, Some(MinUser(inputs0 + inputs1)), Some(MaxUser(inputs0 + inputs1)), r)
    ensures Seed(level, files, r) && forall f | f in inputs0 :: f in r
  {
    hide Sorted, LevelSorted, Overlapping, MinUser, MaxUser, IsSelection, Seed;
    var all := inputs0 + inputs1;
    var begin, end := Some(MinUser(all)), Some(MaxUser(all));
    forall f | f in inputs0 ensures f in r {
      assert f in all && f.entries[0] in f.entries;
      EntriesWithinHull(all, f, f.entries[0]);
      SelectionCovers(level, files, begin, end, r, f);
    }
    assert inputs0[0] in r;
    SelectionIsSeed(level, files, begin, end, r);
  }

  /** A seed with its boundary files. */
  function Completed(files: seq<File>, seed: seq<File>): (r: seq<File>)
    requires seed != []
    ensures r != [] && forall f | f in seed :: f in r
  {
    seed + BoundaryChain(files, MaxLargest(seed))
  }

  /** What some files of a level overlap in another. */
  function OverlappedBy(files: seq<File>, inputs: seq<File>): seq<File>
    requires inputs != []
  {
    Overlapping(files, Some(MinUser(inputs)), Some(MaxUser(inputs)))
  }

  /** More of the upper level: all that the range of both inputs selects, completed, and what that
      overlaps below. */
  ghost predicate IsExpansion(levels: Levels, level: nat, in0: seq<File>, in1: seq<File>, more0: seq<File>,
                              more1: seq<File>)
    requires level + 1 < NUM_LEVELS && in0 != []
  {
    exists r :: IsSelection(level, levels[level], Some(MinUser(in0 + in1)), Some(MaxUser(in0 + in1)), r) && r != []
                && more0 == Completed(levels[level], r) && more1 == OverlappedBy(levels[level + 1], more0)
  }

  /** Is it worth it: more files above, no more below, and not too many bytes? */
  predicate Pays(in0: seq<File>, in1: seq<File>, more0: seq<File>, more1: seq<File>, maxFileSize: nat) {
    in1 != [] && |more0| > |in0| && TotalFileSize(in1) + TotalFileSize(more0) < 25 * maxFileSize && |more1| == |in1|
  }

  /** The inputs of a compaction that begins with a seed: expanded exactly when that pays. */
  ghost predicate AreInputs(levels: Levels, level: nat, seed: seq<File>, maxFileSize: nat, in0: seq<File>,
                            in1: seq<File>)
    requires level + 1 < NUM_LEVELS && seed != []
  {
    var first0 := Completed(levels[level], seed);
    var first1 := OverlappedBy(levels[level + 1], first0);
    if in0 == first0 && in1 == first1 then
      forall more0, more1 | IsExpansion(levels, level, first0, first1, more0, more1) ::
        !Pays(first0, first1, more0, more1, maxFileSize)
    else
      IsExpansion(levels, level, first0, first1, in0, in1) && Pays(first0, first1, in0, in1, maxFileSize)
  }

  lemma {:induction false} ExpansionIsUnique(levels: Levels, level: nat, in0: seq<File>, in1: seq<File>, a0: seq<File>,
      a1: seq<File>, b0: seq<File>, b1: seq<File>)
    requires level + 1 < NUM_LEVELS && in0 != []
    requires IsExpansion(levels, level, in0, in1, a0, a1) && IsExpansion(levels, level, in0, in1, b0, b1)
    ensures a0 == b0 && a1 == b1
  {
    hide IsSelection, BoundaryChain, Overlapping, MinSmallest, MaxLargest;
    var begin, end := Some(MinUser(in0 + in1)), Some(MaxUser(in0 + in1));
    var r :| IsSelection(level, levels[level], begin, end, r) && r != [] && a0 == Completed(levels[level], r)
        && a1 == OverlappedBy(levels[level + 1], a0);
    var s :| IsSelection(level, levels[level], begin, end, s) && s != [] && b0 == Completed(levels[level], s)
        && b1 == OverlappedBy(levels[level + 1], b0);
    SelectionIsUnique(level, levels[level], begin, end, r, s);
  }

  /** The seed and the version determine the inputs. */
  lemma {:induction false} InputsDetermined(levels: Levels, level: nat, seed: seq<File>, maxFileSize: nat,
      a0: seq<File>, a1: seq<File>, b0: seq<File>, b1: seq<File>)
    requires level + 1 < NUM_LEVELS && seed != []
    requires AreInputs(levels, level, seed, maxFileSize, a0, a1) && AreInputs(levels, level, seed, maxFileSize, b0, b1)
    ensures a0 == b0 && a1 == b1
  {
    hide IsExpansion, Pays, Completed, OverlappedBy;
    var first0 := Completed(levels[level], seed);
    var first1 := OverlappedBy(levels[level + 1], first0);
    if IsExpansion(levels, level, first0, first1, a0, a1) && IsExpansion(levels, level, first0, first1, b0, b1) {
      ExpansionIsUnique(levels, level, first0, first1, a0, a1, b0, b1);
    }
  }

  /** An expansion adds files to the upper inputs only: the lower ones stay as they are. */
  lemma {:induction false} LowerInputsStay(levels: Levels, level: nat, seed: seq<File>, maxFileSize: nat,
      in0: seq<File>, in1: seq<File>)
    requires level + 1 < NUM_LEVELS && VersionOk(levels) && Seed(level, levels[level], seed) && seed != []
    requires AreInputs(levels, level, seed, maxFileSize, in0, in1)
    ensures in1 == OverlappedBy(levels[level + 1], Completed(levels[level], seed))
    ensures forall f | f in Completed(levels[level], seed) :: f in in0
  {
    hide Sorted, LevelSorted, Distinct, Seed, IsSelection, BoundaryChain, MinUser, MaxUser, DistinctNumbers,
        LeftBehindIsNewer, Overlapping, MinSmallest, MaxLargest;
    var files, first0 := levels[level], Completed(levels[level], seed);
    var first1 := OverlappedBy(levels[level + 1], first0);
    LevelDistinct(levels, level);
    CompletedSeed(level, files, seed);
    if in0 != first0 || in1 != first1 {
      var r :| IsSelection(level, files, Some(MinUser(first0 + first1)), Some(MaxUser(first0 + first1)), r) && r != []
          && in0 == Completed(files, r) && in1 == OverlappedBy(levels[level + 1], in0);
      ExpansionIsSeed(level, files, first0, first1, r);
      assert forall f | f in first0 :: f in in0;
      WiderHull(first0, in0);
      OverlapGrows(levels[level + 1], Some(MinUser(first0)), Some(MaxUser(first0)), Some(MinUser(in0)),
          Some(MaxUser(in0)));
    }
  }

  /** What the inputs overlap two levels down. */
  function Grandparents(levels: Levels, level: nat, all: seq<File>): seq<File>
    requires all != []
  {
    if level + 2 < NUM_LEVELS then OverlappedBy(levels[level + 2], all) else []
  }

  lemma {:induction false} Expanded(levels: Levels, level: nat, seed: seq<File>, maxFileSize: nat, more0: seq<File>,
      more1: seq<File>)
    requires level + 1 < NUM_LEVELS && seed != []
    requires var first0 := Completed(levels[level], seed);
             IsExpansion(levels, level, first0, OverlappedBy(levels[level + 1], first0), more0, more1)
    ensures var first0 := Completed(levels[level], seed);
            var first1 := OverlappedBy(levels[level + 1], first0);
            if Pays(first0, first1, more0, more1, maxFileSize)
                then AreInputs(levels, level, seed, maxFileSize, more0, more1)
            else AreInputs(levels, level, seed, maxFileSize, first0, first1)
  {
    hide IsExpansion, Completed, OverlappedBy, TotalFileSize;
    var first0 := Completed(levels[level], seed);
    var first1 := OverlappedBy(levels[level + 1], first0);
    forall a0, a1 | IsExpansion(levels, level, first0, first1, a0, a1) ensures a0 == more0 && a1 == more1 {
      ExpansionIsUnique(levels, level, first0, first1, a0, a1, more0, more1);
    }
  }

  lemma {:induction false} NothingBelow(levels: Levels, level: nat, seed: seq<File>, maxFileSize: nat)
    requires level + 1 < NUM_LEVELS && seed != []
    requires OverlappedBy(levels[level + 1], Completed(levels[level], seed)) == []
    ensures AreInputs(levels, level, seed, maxFileSize, Completed(levels[level], seed), [])
  {
    hide IsExpansion, Completed, OverlappedBy, TotalFileSize;
  }

  /** Complete a seed with boundary files and with what it overlaps one level down, and take
      more of the upper level if that pays. */
  method SetupOtherInputs(levels: Levels, level: nat, seed: seq<File>, maxFileSize: nat)
    returns (inputs0: seq<File>, inputs1: seq<File>, grandparents: seq<File>)
    requires level + 1 < NUM_LEVELS && VersionOk(levels)
    requires Seed(level, levels[level], seed)
    ensures InputsOk(levels, level, inputs0, inputs1)
    ensures seed != [] && AreInputs(levels, level, seed, maxFileSize, inputs0, inputs1)
    ensures grandparents == Grandparents(levels, level, inputs0 + inputs1)
  {
    hide Sorted, LevelSorted, Distinct, Overlapping, Seed, IsSelection, MinSmallest, MaxLargest,
        LeftBehindIsNewer, BoundaryChain, DistinctNumbers, AreInputs, TotalFileSize;
    LevelDistinct(levels, level);
    inputs0 := AddBoundaryInputs(levels[level], seed);
    CompletedSeed(level, levels[level], seed);
    var smallest, largest := GetRange(inputs0);
    inputs1 := GetOverlappingInputs(level + 1, levels[level + 1], Some(smallest.user), Some(largest.user));
    var allStart, allLimit := GetRange(inputs0 + inputs1);
    if inputs1 != [] {
      var expanded0 := GetOverlappingInputs(level, levels[level], Some(allStart.user), Some(allLimit.user));
      ExpansionIsSeed(level, levels[level], inputs0, inputs1, expanded0);
      CompletedSeed(level, levels[level], expanded0);
      expanded0 := AddBoundaryInputs(levels[level], expanded0);
      Expanded(levels, level, seed, maxFileSize, expanded0, OverlappedBy(levels[level + 1], expanded0));
      if |expanded0| > |inputs0| && TotalFileSize(inputs1) + TotalFileSize(expanded0) < 25 * maxFileSize {
        var newStart, newLimit := GetRange(expanded0);
        var expanded1 := GetOverlappingInputs(level + 1, levels[level + 1], Some(newStart.user), Some(newLimit.user));
        if |expanded1| == |inputs1| {
          inputs0, inputs1 := expanded0, expanded1;
          allStart, allLimit := GetRange(inputs0 + inputs1);
        }
      }
    } else {
      NothingBelow(levels, level, seed, maxFileSize);
    }
    grandparents := [];
    if level + 2 < NUM_LEVELS {
      grandparents := GetOverlappingInputs(level + 2, levels[level + 2], Some(allStart.user), Some(allLimit.user));
    }
  }

  lemma {:induction false} WiderHull(inputs: seq<File>, more: seq<File>)
    requires inputs != [] && more != [] && forall f | f in inputs :: f in more
    ensures MinUser(more) <= MinUser(inputs) && MaxUser(inputs) <= MaxUser(more)
  {
    hide MinSmallest, MaxLargest, Sorted;
    var low := MinSmallestIsOne(inputs);
    var top := MaxLargestIsMax(inputs);
    EntriesWithinHull(more, inputs[low], inputs[low].entries[0]);
    EntriesWithinHull(more, inputs[top], inputs[top].entries[0]);
  }

  lemma {:induction false} MinSmallestIsOne(files: seq<File>) returns (low: nat)
    requires files != []
    ensures low < |files| && MinSmallest(files) == Smallest(files[low])
  {
    hide Smallest;
    var n := |files| - 1;
    low := n;
    if n > 0 && !Less(Smallest(files[n]), MinSmallest(files[..n])) {
      low := MinSmallestIsOne(files[..n]);
    }
  }

  /** A wider range overlaps no fewer files, and as many only if it overlaps the same. */
  lemma {:induction false} OverlapGrows(files: seq<File>, a: Option<UserKey>, b: Option<UserKey>, a': Option<UserKey>,
      b': Option<UserKey>)
    requires Covers(a', b', a, b)
    ensures |Overlapping(files, a, b)| <= |Overlapping(files, a', b')|
    ensures |Overlapping(files, a, b)| == |Overlapping(files, a', b')| ==>
        Overlapping(files, a, b) == Overlapping(files, a', b')
  {
    hide Sorted;
    if files != [] {
      OverlapGrows(files[..|files| - 1], a, b, a', b');
    }
  }

  lemma {:induction false} LevelDistinct(levels: Levels, level: nat)
    requires level < NUM_LEVELS && Distinct(AllEntries(levels, 0))
    ensures Distinct(EntriesOf(levels[level]))
  {
    assert forall e | e in EntriesOf(levels[level]) :: e in AllEntries(levels, 0);
  }

  // ---------- Where a compaction starts ----------

  /** A size compaction resumes after the level's compact pointer; a seek compaction takes the
      file that was charged too many seeks. */
  datatype Trigger = BySize(pointer: Option<InternalKey>) | BySeek(file: nat)

  /** The file a compaction is built around: the one charged, or the first to end past the
      pointer, wrapping around to the start of the level. */
  ghost predicate IsPick(files: seq<File>, trigger: Trigger, i: nat) {
    && i < |files|
    && match trigger
       case BySeek(file) => i == file
       case BySize(None) => i == 0
       case BySize(Some(key)) =>
         || (Less(key, Largest(files[i])) && forall j | 0 <= j < i :: !Less(key, Largest(files[j])))
         || (i == 0 && forall j | 0 <= j < |files| :: !Less(key, Largest(files[j])))
  }

  /** What the compaction begins with: that file, at level 0 with the files around it. */
  ghost predicate IsPickSeed(level: nat, files: seq<File>, trigger: Trigger, seed: seq<File>) {
    exists i: nat :: IsPick(files, trigger, i)
        && if level > 0 then seed == [files[i]]
           else IsSelection(0, files, Some(Smallest(files[i]).user), Some(Largest(files[i]).user), seed)
  }

  method PickCompaction(levels: Levels, level: nat, trigger: Trigger) returns (seed: seq<File>)
    requires level + 1 < NUM_LEVELS && VersionOk(levels) && levels[level] != []
    requires trigger.BySeek? ==> trigger.file < |levels[level]|
    ensures Seed(level, levels[level], seed)
    ensures IsPickSeed(level, levels[level], trigger, seed)
  {
    hide Sorted, LevelSorted, Less, Overlapping, IsSelection;
    var files := levels[level];
    var pick := 0;
    match trigger {
      case BySeek(file) =>
        pick := file;
      case BySize(pointer) =>
        var i := 0;
        while i < |files| && pointer.Some? && Compare(Largest(files[i]), pointer.value) <= 0
          invariant i <= |files|
          invariant pointer.None? ==> i == 0
          invariant pointer.Some? ==> forall j | 0 <= j < i :: !Less(pointer.value, Largest(files[j]))
        {
          i := i + 1;
        }
        pick := if i < |files| then i else 0;
    }
    seed := [files[pick]];
    assert IsPick(files, trigger, pick);
    if level == 0 {
      var smallest, largest := GetRange(seed);
      seed := GetOverlappingInputs(0, files, Some(smallest.user), Some(largest.user));
      FileOverlapsItself(files[pick]);
      SelectionCovers(0, files, Some(smallest.user), Some(largest.user), seed, files[pick]);
    }
    SeedForIsSeed(level, files, Automatic(trigger), 0, seed);
  }

  /** A manual compaction takes what overlaps the range; above level 0, a prefix of it that is
      not too large. */
  method CompactRange(levels: Levels, level: nat, begin: Option<UserKey>, end: Option<UserKey>, maxFileSize: nat)
    returns (seed: seq<File>)
    requires level + 1 < NUM_LEVELS && VersionOk(levels)
    ensures seed != [] ==> Seed(level, levels[level], seed)
    ensures seed == [] ==> forall f | f in levels[level] :: !Overlaps(f, begin, end)
    ensures IsRangeSeed(level, levels[level], begin, end, maxFileSize, seed)
  {
    hide Sorted, Less, Overlapping, Overlaps, IsSelection, CutBySize;
    var files := levels[level];
    seed := GetOverlappingInputs(level, files, begin, end);
    forall f | f in files && Overlaps(f, begin, end) ensures f in seed {
      SelectionCovers(level, files, begin, end, seed, f);
    }
    if seed == [] {
      NothingToCut(maxFileSize);
      return;
    }
    if level > 0 {
      seed := FirstFiles(seed, maxFileSize);
    }
    SeedForIsSeed(level, files, Manual(begin, end), maxFileSize, seed);
  }

  lemma {:induction false} NothingToCut(limit: nat)
    ensures CutBySize([], [], limit)
  {
  }

  method FirstFiles(all: seq<File>, limit: nat) returns (kept: seq<File>)
    requires all != []
    ensures kept != [] && kept <= all && CutBySize(all, kept, limit)
  {
    hide Sorted;
    var total := 0;
    assert all[0..0] == [];
    for i := 0 to |all|
      invariant total == TotalFileSize(all[0..i])
      invariant forall k | 1 <= k <= i :: TotalFileSize(all[0..k]) < limit
    {
      TotalOfNext(all, 0, i);
      total := total + all[i].size;
      if total >= limit {
        assert all[0..i + 1] == all[..i + 1];
        return all[..i + 1];
      }
    }
    return all;
  }

  /** What a manual compaction of a range begins with. */
  ghost predicate IsRangeSeed(level: nat, files: seq<File>, begin: Option<UserKey>, end: Option<UserKey>,
                              maxFileSize: nat, seed: seq<File>) {
    if level > 0 then CutBySize(Overlapping(files, begin, end), seed, maxFileSize)
    else IsSelection(0, files, begin, end, seed)
  }

  /** The files kept are the first ones: up to where their size reaches the limit, or all. */
  ghost predicate CutBySize(all: seq<File>, kept: seq<File>, limit: nat) {
    && kept <= all
    && (kept < all ==> TotalFileSize(kept) >= limit)
    && forall k | 1 <= k < |kept| :: TotalFileSize(all[0..k]) < limit
  }

  // ---------- What is compacted ----------

  /** What starts a background compaction of a level. */
  datatype Request = Automatic(trigger: Trigger) | Manual(begin: Option<UserKey>, end: Option<UserKey>)

  ghost predicate IsSeedFor(level: nat, files: seq<File>, request: Request, maxFileSize: nat, seed: seq<File>) {
    match request
    case Automatic(trigger) => IsPickSeed(level, files, trigger, seed)
    case Manual(begin, end) => IsRangeSeed(level, files, begin, end, maxFileSize, seed)
  }

  lemma {:induction false} SeedForIsSeed(level: nat, files: seq<File>, request: Request, maxFileSize: nat,
      seed: seq<File>)
    requires level > 0 ==> LevelSorted(files)
    requires IsSeedFor(level, files, request, maxFileSize, seed) && seed != []
    ensures Seed(level, files, seed)
  {
    hide Sorted, LevelSorted, Less, Overlapping, IsSelection, Overlaps, TotalFileSize;
    match request
    case Automatic(trigger) =>
      var i: nat :| IsPick(files, trigger, i)
        && if level > 0 then seed == [files[i]]
           else IsSelection(0, files, Some(Smallest(files[i]).user), Some(Largest(files[i]).user), seed);
      if level > 0 {
        assert IsSlice(files, i, i + 1, seed);
      } else {
        SelectionIsSeed(0, files, Some(Smallest(files[i]).user), Some(Largest(files[i]).user), seed);
      }
    case Manual(begin, end) =>
      if level > 0 {
        var lo, hi := OverlappingIsRun(files, begin, end);
        assert seed == files[lo..lo + |seed|];
        assert IsSlice(files, lo, lo + |seed|, seed);
      } else {
        SelectionIsSeed(0, files, begin, end, seed);
      }
  }

  /** The inputs that answer a request. */
  ghost predicate AreChosen(levels: Levels, level: nat, request: Request, maxFileSize: nat, in0: seq<File>,
                            in1: seq<File>)
    requires level + 1 < NUM_LEVELS
  {
    exists seed :: IsSeedFor(level, levels[level], request, maxFileSize, seed) && seed != []
                   && AreInputs(levels, level, seed, maxFileSize, in0, in1)
  }

  /** May a compaction just move its only file down? Not when asked for by hand, and not onto too many
      bytes two levels down. */
  predicate IsTrivialMove(levels: Levels, level: nat, request: Request, maxFileSize: nat, in0: seq<File>,
                          in1: seq<File>)
  {
    request.Automatic? && |in0| == 1 && in1 == [] && TotalFileSize(Grandparents(levels, level, in0)) <= 10 * maxFileSize
  }

  /** The inputs hold the file that an automatic compaction is built around, and of what overlaps the
      range of a manual one all files at level 0, and below it the first ones. */
  lemma {:induction false} ChosenHold(levels: Levels, level: nat, request: Request, maxFileSize: nat, in0: seq<File>,
      in1: seq<File>)
    requires level + 1 < NUM_LEVELS && VersionOk(levels) && AreChosen(levels, level, request, maxFileSize, in0, in1)
    ensures request.Automatic? ==>
        exists i: nat :: IsPick(levels[level], request.trigger, i) && levels[level][i] in in0
    ensures request.Manual? && level == 0 ==>
        forall f | f in levels[0] && Overlaps(f, request.begin, request.end) :: f in in0
    ensures request.Manual? && level > 0 ==>
        exists kept :: CutBySize(Overlapping(levels[level], request.begin, request.end), kept, maxFileSize)
                       && kept != [] && forall f | f in kept :: f in in0
  {
    hide AreInputs, Seed, Overlapping, IsSelection, CutBySize, Completed, OverlappedBy, Overlaps, LevelSorted,
        DistinctNumbers, Distinct, Less;
    var seed :| IsSeedFor(level, levels[level], request, maxFileSize, seed) && seed != []
        && AreInputs(levels, level, seed, maxFileSize, in0, in1);
    SeedForIsSeed(level, levels[level], request, maxFileSize, seed);
    LowerInputsStay(levels, level, seed, maxFileSize, in0, in1);
    assert forall f | f in seed :: f in in0;
    match request
    case Automatic(trigger) =>
      var i: nat :| IsPick(levels[level], trigger, i)
        && if level > 0 then seed == [levels[level][i]]
           else IsSelection(0, levels[level], Some(Smallest(levels[level][i]).user),
                            Some(Largest(levels[level][i]).user), seed);
      var f := levels[level][i];
      if level == 0 {
        EntryWithinFile(f, f.entries[0]);
        FileOverlapsItself(f);
        SelectionCovers(0, levels[0], Some(Smallest(f).user), Some(Largest(f).user), seed, f);
      } else {
        assert f in seed;
      }
    case Manual(begin, end) =>
      if level == 0 {
        forall f | f in levels[0] && Overlaps(f, begin, end) ensures f in in0 {
          SelectionCovers(0, levels[0], begin, end, seed, f);
        }
      }
  }

  lemma {:induction false} FileOverlapsItself(f: File)
    ensures Overlaps(f, Some(Smallest(f).user), Some(Largest(f).user))
  {
    EntryWithinFile(f, f.entries[0]);
  }
}
