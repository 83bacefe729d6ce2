/** A version: seven levels of table files, and the searches over them. */
module Versions {
  import opened Format

  const NUM_LEVELS := 7
  const MAX_MEM_COMPACT_LEVEL := 2

  datatype Table = Table(number: nat, size: nat, entries: seq<Entry>)

  /** A table file that made it into a version: it is non-empty and in key order. Its metadata
      bounds are the first and the last key written to it. */
  type File = t: Table | |t.entries| > 0 && Sorted(t.entries)
    witness Table(0, 0, [Entry(InternalKey(0.0, 0, Put), [])])

  function Smallest(f: File): InternalKey {
    f.entries[0].key
  }

  function Largest(f: File): InternalKey {
    f.entries[|f.entries| - 1].key
  }

  /** Levels above 0: files in increasing order, their key ranges disjoint. */
  ghost predicate LevelSorted(files: seq<File>) {
    forall i, j :: 0 <= i < j < |files| ==> Less(Largest(files[i]), Smallest(files[j]))
  }

  ghost function EntriesOf(files: seq<File>): set<Entry> {
    set f, e | f in files && e in f.entries :: e
  }

  lemma {:induction false} EntryWithinFile(f: File, e: Entry)
    requires e in f.entries
    ensures !Less(e.key, Smallest(f)) && !Less(Largest(f), e.key)
    ensures Smallest(f).user <= e.key.user <= Largest(f).user
  {
    var i :| 0 <= i < |f.entries| && f.entries[i] == e;
    if i > 0 { assert Less(f.entries[0].key, f.entries[i].key); }
    if i < |f.entries| - 1 { assert Less(f.entries[i].key, f.entries[|f.entries| - 1].key); }
  }

  // ---------- Overlap ----------

  /** Does the file's user-key range miss [lo, hi]? An absent bound is unbounded. */
  predicate AfterFile(u: Option<UserKey>, f: File)
  {
    u.Some? && u.value > Largest(f).user
  }

  predicate BeforeFile(u: Option<UserKey>, f: File)
  {
    u.Some? && u.value < Smallest(f).user
  }

  predicate Overlaps(f: File, lo: Option<UserKey>, hi: Option<UserKey>)
  {
    !AfterFile(lo, f) && !BeforeFile(hi, f)
  }

  /** Binary search for the first file whose largest key is at or after `key`. */
  method FindFile(files: seq<File>, key: InternalKey) returns (right: nat)
    requires LevelSorted(files)
    ensures right <= |files|
    ensures forall i | 0 <= i < |files| :: i < right <==> Less(Largest(files[i]), key)
  {
    var left := 0;
    right := |files|;
    while left < right
      invariant left <= right <= |files|
      invariant forall i | 0 <= i < left :: Less(Largest(files[i]), key)
      invariant forall i | right <= i < |files| :: !Less(Largest(files[i]), key)
    {
      var mid := (left + right) / 2;
      var f := files[mid];
      forall i, j | 0 <= i < j < |files| ensures Less(Largest(files[i]), Largest(files[j])) {
        LargestsIncrease(files, i, j);
      }
      if Compare(Largest(f), key) < 0 {
        left := mid + 1;
      } else {
        right := mid;
      }
    }
  }

  lemma {:induction false} LargestsIncrease(files: seq<File>, i: nat, j: nat)
    requires LevelSorted(files) && i < j < |files|
    ensures Less(Largest(files[i]), Largest(files[j]))
    ensures Less(Smallest(files[i]), Smallest(files[j]))
    ensures Largest(files[i]).user <= Smallest(files[j]).user
  {
    EntryWithinFile(files[j], files[j].entries[0]);
    EntryWithinFile(files[i], files[i].entries[0]);
  }

  /** Does any file overlap [smallest, largest]? Level 0 is scanned; a sorted level is searched. */
  method SomeFileOverlapsRange(disjointSorted: bool, files: seq<File>,
                               smallest: Option<UserKey>, largest: Option<UserKey>)
    returns (r: bool)
    requires disjointSorted ==> LevelSorted(files)
    requires smallest.Some? && largest.Some? ==> smallest.value <= largest.value
    ensures r <==> exists f :: f in files && Overlaps(f, smallest, largest)
  {
    if !disjointSorted {
      for i := 0 to |files|
        invariant forall j | 0 <= j < i :: !Overlaps(files[j], smallest, largest)
      {
        var f := files[i];
        if AfterFile(smallest, f) || BeforeFile(largest, f) {
        } else {
          assert f in files && Overlaps(f, smallest, largest);
          return true;
        }
      }
      return false;
    }
    var index := 0;
    if smallest.Some? {
      index := FindFile(files, InternalKey(smallest.value, MAX_SEQUENCE, SEEK_TYPE));
    }
    if index >= |files| {
      forall i | 0 <= i < |files| ensures !Overlaps(files[i], smallest, largest) {
      }
      return false;
    }
    r := !BeforeFile(largest, files[index]);
    if r {
      assert files[index] in files && Overlaps(files[index], smallest, largest);
    } else {
      forall j | 0 <= j < |files| ensures !Overlaps(files[j], smallest, largest) {
        if j > index {
          LargestsIncrease(files, index, j);
        }
      }
    }
  }

  // ---------- Overlapping inputs ----------

  /** The files overlapping [lo, hi], in level order. */
  function Overlapping(files: seq<File>, lo: Option<UserKey>, hi: Option<UserKey>): seq<File> {
    if files == [] then []
    else
      var last := files[|files| - 1];
      Overlapping(files[..|files| - 1], lo, hi) + (if Overlaps(last, lo, hi) then [last] else [])
  }

  lemma {:induction false} OverlappingHolds(files: seq<File>, lo: Option<UserKey>, hi: Option<UserKey>, f: File)
    ensures f in Overlapping(files, lo, hi) <==> f in files && Overlaps(f, lo, hi)
  {
    if files != [] {
      OverlappingHolds(files[..|files| - 1], lo, hi, f);
      assert files == files[..|files| - 1] + [files[|files| - 1]];
    }
  }

  /** Does [l, h] contain [lo, hi]? */
  predicate Covers(l: Option<UserKey>, h: Option<UserKey>, lo: Option<UserKey>, hi: Option<UserKey>) {
    && (l.None? || (lo.Some? && l.value <= lo.value))
    && (h.None? || (hi.Some? && hi.value <= h.value))
  }

  predicate Within(f: File, lo: Option<UserKey>, hi: Option<UserKey>) {
    && (lo.Some? ==> lo.value <= Smallest(f).user)
    && (hi.Some? ==> Largest(f).user <= hi.value)
  }

  /** No file straddles the edge of [lo, hi]. */
  ghost predicate ClosedRange(files: seq<File>, lo: Option<UserKey>, hi: Option<UserKey>) {
    forall f | f in files && Overlaps(f, lo, hi) :: Within(f, lo, hi)
  }

  /** Every closed range around [begin, end] contains [lo, hi]. */
  ghost predicate InEveryClosedRange(files: seq<File>, begin: Option<UserKey>, end: Option<UserKey>,
                                     lo: Option<UserKey>, hi: Option<UserKey>) {
    forall l, h | Covers(l, h, begin, end) && ClosedRange(files, l, h) :: Covers(l, h, lo, hi)
  }

  ghost predicate LeastClosedRange(files: seq<File>, begin: Option<UserKey>, end: Option<UserKey>,
                                   lo: Option<UserKey>, hi: Option<UserKey>) {
    && Covers(lo, hi, begin, end) && ClosedRange(files, lo, hi)
    && InEveryClosedRange(files, begin, end, lo, hi)
  }

  /** The files of a level around a range: all that overlap it, at level 0 also what overlaps those. */
  ghost predicate IsSelection(level: nat, files: seq<File>, begin: Option<UserKey>, end: Option<UserKey>,
                              r: seq<File>) {
    if level > 0 then r == Overlapping(files, begin, end)
    else exists lo, hi :: LeastClosedRange(files, begin, end, lo, hi) && r == Overlapping(files, lo, hi)
  }

  /** There is only one selection. */
  lemma {:induction false} SelectionIsUnique(level: nat, files: seq<File>, begin: Option<UserKey>, end: Option<UserKey>,
      a: seq<File>, b: seq<File>)
    requires IsSelection(level, files, begin, end, a) && IsSelection(level, files, begin, end, b)
    ensures a == b
  {
    hide Overlapping, ClosedRange;
    if level == 0 {
      var l, h :| LeastClosedRange(files, begin, end, l, h) && a == Overlapping(files, l, h);
      var l', h' :| LeastClosedRange(files, begin, end, l', h') && b == Overlapping(files, l', h');
      assert Covers(l, h, l', h') && Covers(l', h', l, h);
    }
  }

  ghost function StartBefore(files: seq<File>, lo: Option<UserKey>): set<nat> {
    set k: nat | k < |files| && lo.Some? && Smallest(files[k]).user < lo.value
  }

  ghost function LimitAfter(files: seq<File>, hi: Option<UserKey>): set<nat> {
    set k: nat | k < |files| && hi.Some? && Largest(files[k]).user > hi.value
  }

  /** The scan has looked at files[..i] with the range [lo, hi]. */
  ghost predicate Scanned(level: nat, files: seq<File>, begin: Option<UserKey>, end: Option<UserKey>,
                          i: nat, lo: Option<UserKey>, hi: Option<UserKey>, inputs: seq<File>) {
    if i > |files| then false else
    && (lo.Some? <==> begin.Some?) && (hi.Some? <==> end.Some?)
    && Covers(lo, hi, begin, end)
    && (level > 0 ==> lo == begin && hi == end)
    && inputs == Overlapping(files[..i], lo, hi)
    && (level == 0 ==> forall f | f in inputs :: Within(f, lo, hi))
    && InEveryClosedRange(files, begin, end, lo, hi)
  }

  lemma {:induction false} ScanStarts(level: nat, files: seq<File>, begin: Option<UserKey>, end: Option<UserKey>)
    ensures Scanned(level, files, begin, end, 0, begin, end, [])
  {
  }

  /** What the scan has established at its end. */
  lemma {:induction false} ScanEnds(level: nat, files: seq<File>, begin: Option<UserKey>, end: Option<UserKey>,
                 lo: Option<UserKey>, hi: Option<UserKey>, inputs: seq<File>)
    requires Scanned(level, files, begin, end, |files|, lo, hi, inputs)
    ensures inputs == Overlapping(files, lo, hi)
    ensures level > 0 ==> lo == begin && hi == end
    ensures level == 0 ==> LeastClosedRange(files, begin, end, lo, hi)
  {
    hide Overlapping, Overlaps, Within, InEveryClosedRange, Covers;
    assert files[..|files|] == files;
    if level == 0 {
      forall f | f in files && Overlaps(f, lo, hi) ensures Within(f, lo, hi) {
        OverlappingHolds(files, lo, hi, f);
      }
    }
  }

  lemma {:induction false} ScanKeepsBounds(level: nat, files: seq<File>, begin: Option<UserKey>, end: Option<UserKey>,
                        i: nat, lo: Option<UserKey>, hi: Option<UserKey>, inputs: seq<File>)
    requires Scanned(level, files, begin, end, i, lo, hi, inputs)
    ensures i <= |files| && (lo.Some? <==> begin.Some?) && (hi.Some? <==> end.Some?)
  {
  }

  /** A file that widens nothing is taken if it overlaps and skipped otherwise. */
  lemma {:induction false} ScanOneFile(level: nat, files: seq<File>, begin: Option<UserKey>, end: Option<UserKey>,
                    i: nat, lo: Option<UserKey>, hi: Option<UserKey>, inputs: seq<File>)
    requires Scanned(level, files, begin, end, i, lo, hi, inputs) && i < |files|
    requires Overlaps(files[i], lo, hi) && level == 0 ==> Within(files[i], lo, hi)
    ensures Scanned(level, files, begin, end, i + 1, lo, hi,
                    if Overlaps(files[i], lo, hi) then inputs + [files[i]] else inputs)
  {
    assert files[..i + 1] == files[..i] + [files[i]];
  }

  /** A file that widens the range restarts the scan inside every closed range, closer to one. */
  lemma {:induction false} ScanRestart(files: seq<File>, begin: Option<UserKey>, end: Option<UserKey>,
                    i: nat, lo: Option<UserKey>, hi: Option<UserKey>, inputs: seq<File>)
    requires Scanned(0, files, begin, end, i, lo, hi, inputs) && i < |files|
    requires Overlaps(files[i], lo, hi)
    ensures lo.Some? && Smallest(files[i]).user < lo.value ==>
              var lo' := Some(Smallest(files[i]).user);
              Scanned(0, files, begin, end, 0, lo', hi, []) && StartBefore(files, lo') < StartBefore(files, lo)
    ensures hi.Some? && Largest(files[i]).user > hi.value ==>
              var hi' := Some(Largest(files[i]).user);
              Scanned(0, files, begin, end, 0, lo, hi', []) && LimitAfter(files, hi') < LimitAfter(files, hi)
  {
    var f := files[i];
    forall l, h | Covers(l, h, begin, end) && ClosedRange(files, l, h) ensures Within(f, l, h) {
      assert Covers(l, h, lo, hi);
      assert Overlaps(f, l, h);
    }
    if lo.Some? && Smallest(f).user < lo.value {
      assert i in StartBefore(files, lo) && i !in StartBefore(files, Some(Smallest(f).user));
    }
    if hi.Some? && Largest(f).user > hi.value {
      assert i in LimitAfter(files, hi) && i !in LimitAfter(files, Some(Largest(f).user));
    }
  }

  /** All files of a level overlapping [begin, end]. At level 0, whose files overlap one another,
      the range first grows to the least closed one around it. */
  method GetOverlappingInputs(level: nat, files: seq<File>, begin: Option<UserKey>, end: Option<UserKey>)
    returns (inputs: seq<File>)
    ensures IsSelection(level, files, begin, end, inputs)
    ensures level > 0 ==> inputs == Overlapping(files, begin, end)
  {
    var userBegin, userEnd := begin, end;
    inputs := [];
    var i := 0;
    hide Scanned, StartBefore, LimitAfter, LeastClosedRange, Overlapping;
    ScanStarts(level, files, begin, end);
    while i < |files|
      invariant Scanned(level, files, begin, end, i, userBegin, userEnd, inputs) && i <= |files|
      decreases StartBefore(files, userBegin), LimitAfter(files, userEnd), |files| - i
    {
      ScanKeepsBounds(level, files, begin, end, i, userBegin, userEnd, inputs);
      var f := files[i];
      var start, limit := Smallest(f).user, Largest(f).user;
      if begin.Some? && limit < userBegin.value {
        ScanOneFile(level, files, begin, end, i, userBegin, userEnd, inputs);
        i := i + 1;
      } else if end.Some? && start > userEnd.value {
        ScanOneFile(level, files, begin, end, i, userBegin, userEnd, inputs);
        i := i + 1;
      } else if level == 0 && begin.Some? && start < userBegin.value {
        ScanRestart(files, begin, end, i, userBegin, userEnd, inputs);
        userBegin, inputs, i := Some(start), [], 0;
      } else if level == 0 && end.Some? && limit > userEnd.value {
        ScanRestart(files, begin, end, i, userBegin, userEnd, inputs);
        userEnd, inputs, i := Some(limit), [], 0;
      } else {
        ScanOneFile(level, files, begin, end, i, userBegin, userEnd, inputs);
        inputs, i := inputs + [f], i + 1;
      }
    }
    ScanEnds(level, files, begin, end, userBegin, userEnd, inputs);
  }

  function TotalFileSize(files: seq<File>): nat {
    if files == [] then 0 else files[0].size + TotalFileSize(files[1..])
  }

  lemma {:induction false} TotalOfNext(files: seq<File>, lo: nat, hi: nat)
    requires lo <= hi < |files|
    ensures TotalFileSize(files[lo..hi + 1]) == TotalFileSize(files[lo..hi]) + files[hi].size
    decreases hi - lo
  {
    if lo < hi {
      assert files[lo..hi + 1][1..] == files[lo + 1..hi + 1] && files[lo..hi][1..] == files[lo + 1..hi];
      TotalOfNext(files, lo + 1, hi);
    } else {
      assert files[lo..hi + 1][1..] == [];
    }
  }

  // ---------- Where a flushed memtable goes ----------

  ghost predicate NoOverlap(files: seq<File>, lo: UserKey, hi: UserKey) {
    forall f | f in files :: !Overlaps(f, Some(lo), Some(hi))
  }

  /** May a table with user keys in [lo, hi] go one level further down? */
  ghost predicate MayGoDown(levels: Levels, lo: UserKey, hi: UserKey, maxFileSize: nat, level: nat)
    requires level + 2 < NUM_LEVELS
  {
    && NoOverlap(levels[0], lo, hi) && NoOverlap(levels[level + 1], lo, hi)
    && TotalFileSize(Overlapping(levels[level + 2], Some(lo), Some(hi))) <= 10 * maxFileSize
  }

  /** The level for a table with user keys in [lo, hi]: as deep as it may go step by step. */
  ghost predicate IsFlushLevel(levels: Levels, lo: UserKey, hi: UserKey, maxFileSize: nat, level: nat) {
    && level <= MAX_MEM_COMPACT_LEVEL
    && (forall l | 0 <= l < level :: MayGoDown(levels, lo, hi, maxFileSize, l))
    && (level < MAX_MEM_COMPACT_LEVEL ==> !MayGoDown(levels, lo, hi, maxFileSize, level))
  }

  /** Nothing overlaps the table at its level or above. */
  lemma {:induction false} FlushLevelIsClear(levels: Levels, lo: UserKey, hi: UserKey, maxFileSize: nat, level: nat)
    requires IsFlushLevel(levels, lo, hi, maxFileSize, level)
    ensures level > 0 ==> forall l | 0 <= l <= level :: NoOverlap(levels[l], lo, hi)
  {
    hide NoOverlap;
    forall l | 0 <= l <= level && level > 0 ensures NoOverlap(levels[l], lo, hi) {
      assert MayGoDown(levels, lo, hi, maxFileSize, if l == 0 then 0 else l - 1);
    }
  }

  method PickLevelForMemTableOutput(levels: Levels, lo: UserKey, hi: UserKey, maxFileSize: nat)
    returns (level: nat)
    requires lo <= hi && forall l | 1 <= l < NUM_LEVELS :: LevelSorted(levels[l])
    ensures IsFlushLevel(levels, lo, hi, maxFileSize, level)
  {
    level := 0;
    var overlap := SomeFileOverlapsRange(false, levels[0], Some(lo), Some(hi));
    if !overlap {
      while level < MAX_MEM_COMPACT_LEVEL
        invariant level <= MAX_MEM_COMPACT_LEVEL && NoOverlap(levels[0], lo, hi)
        invariant forall l | 0 <= l < level :: MayGoDown(levels, lo, hi, maxFileSize, l)
      {
        overlap := SomeFileOverlapsRange(true, levels[level + 1], Some(lo), Some(hi));
        if overlap {
          break;
        }
        var overlaps := GetOverlappingInputs(level + 2, levels[level + 2], Some(lo), Some(hi));
        if TotalFileSize(overlaps) > 10 * maxFileSize {
          break;
        }
        level := level + 1;
      }
    }
  }

  // ---------- Point lookups ----------

  predicate DistinctNumbers(files: seq<File>) {
    forall i, j :: 0 <= i < j < |files| ==> files[i].number != files[j].number
  }

  ghost predicate HigherNumberIsNewer(files: seq<File>) {
    forall f, g | f in files && g in files && f.number > g.number :: Newer(SetOf(f.entries), SetOf(g.entries))
  }

  predicate NewestFirst(files: seq<File>) {
    forall i, j :: 0 <= i < j < |files| ==> files[i].number > files[j].number
  }

  function InsertByNumber(sorted: seq<File>, f: File): (r: seq<File>)
    requires NewestFirst(sorted)
    requires forall g | g in sorted :: g.number != f.number
    ensures NewestFirst(r)
    ensures forall g :: g in r <==> g in sorted || g == f
  {
    if sorted == [] || f.number > sorted[0].number then [f] + sorted
    else
      var rest := InsertByNumber(sorted[1..], f);
      assert forall j | 0 <= j < |rest| :: rest[j] in rest;
      [sorted[0]] + rest
  }

  /** The library sort by `NewestFirst`, of files told apart by number. */
  function SortNewestFirst(files: seq<File>): (r: seq<File>)
    requires DistinctNumbers(files)
    ensures NewestFirst(r)
    ensures forall g :: g in r <==> g in files
  {
    if files == [] then [] else InsertByNumber(SortNewestFirst(files[1..]), files[0])
  }

  type Levels = ls: seq<seq<File>> | |ls| == NUM_LEVELS witness seq(NUM_LEVELS, _ => [])

  const NO_FILES: Levels := [[], [], [], [], [], [], []]

  ghost function AllEntries(levels: Levels, from: nat): set<Entry>
    requires from <= NUM_LEVELS
  {
    set l, e | from <= l < NUM_LEVELS && e in EntriesOf(levels[l]) :: e
  }

  /** The files of a version are told apart by number, levels above 0 are sorted, and what is
      read first is newer: by file number within level 0, by level after that. */
  ghost predicate VersionOk(levels: Levels) {
    && DistinctNumbers(levels[0])
    && HigherNumberIsNewer(levels[0])
    && (forall l | 1 <= l < NUM_LEVELS :: LevelSorted(levels[l]))
    && (forall l, m :: 0 <= l < m < NUM_LEVELS ==> Newer(EntriesOf(levels[l]), EntriesOf(levels[m])))
    && Distinct(AllEntries(levels, 0))
  }

  /** Search a sorted level for (u, s): at most one file can hold the newest visible entry. */
  method GetFromSortedLevel(files: seq<File>, u: UserKey, s: SequenceNumber) returns (r: Option<Entry>)
    requires LevelSorted(files)
    ensures r.None? <==> Unseen(EntriesOf(files), u, s)
    ensures r.Some? ==> Newest(EntriesOf(files), u, s, r.value)
  {
    var index := FindFile(files, SeekKey(u, s));
    FoundFileDecides(files, index, u, s);
    if index >= |files| {
      r := None;
    } else {
      var f := files[index];
      if u < Smallest(f).user {
        r := None;
      } else {
        r := PointGet(f.entries, u, s);
      }
    }
  }

  /** A seen entry lies in the found file or in a later one; then the found file's last key is
      seen too, and is newer. */
  lemma {:induction false} SeenAtOrPastTheFoundFile(files: seq<File>, index: nat, u: UserKey, s: SequenceNumber,
      i: nat, e: Entry)
    requires LevelSorted(files) && index <= |files|
    requires forall j | 0 <= j < |files| :: j < index <==> Less(Largest(files[j]), SeekKey(u, s))
    requires i < |files| && e in files[i].entries && Sees(e, u, s)
    ensures index <= i && Smallest(files[index]).user <= u
    ensures i > index ==> var last := files[index].entries[|files[index].entries| - 1];
              Sees(last, u, s) && e.key.sequence <= last.key.sequence
  {
    EntryWithinFile(files[i], e);
    SeekSkipsExactlyTheUnseen(e.key, u, s);
    if i > index {
      LargestsIncrease(files, index, i);
      SeekSkipsExactlyTheUnseen(Largest(files[index]), u, s);
    }
  }

  lemma {:induction false} FoundFileDecides(files: seq<File>, index: nat, u: UserKey, s: SequenceNumber)
    requires LevelSorted(files) && index <= |files|
    requires forall i | 0 <= i < |files| :: i < index <==> Less(Largest(files[i]), SeekKey(u, s))
    ensures index == |files| || u < Smallest(files[index]).user ==> Unseen(EntriesOf(files), u, s)
    ensures index < |files| ==> var hit := PointGet(files[index].entries, u, s);
              && (hit.None? <==> Unseen(EntriesOf(files), u, s))
              && (hit.Some? ==> Newest(EntriesOf(files), u, s, hit.value))
  {
    hide LevelSorted, Less, SeekIndex, PointGet;
    if index < |files| {
      PointGetIsNewest(files[index].entries, u, s);
    }
    forall e | e in EntriesOf(files) && Sees(e, u, s)
      ensures index < |files| && Smallest(files[index]).user <= u
      ensures var hit := PointGet(files[index].entries, u, s); hit.Some? && e.key.sequence <= hit.value.key.sequence
    {
      var f :| f in files && e in f.entries;
      var i :| 0 <= i < |files| && files[i] == f;
      SeenAtOrPastTheFoundFile(files, index, u, s, i, e);
      var x := if i == index then e else files[index].entries[|files[index].entries| - 1];
      assert x in SetOf(files[index].entries) && Sees(x, u, s);
    }
  }

  /** Search level 0 for (u, s): collect the files whose range holds `u`, newest first, and take
      the first hit. */
  method GetFromLevel0(files: seq<File>, u: UserKey, s: SequenceNumber) returns (r: Option<Entry>)
    requires DistinctNumbers(files)
    requires HigherNumberIsNewer(files)
    ensures r.None? <==> Unseen(EntriesOf(files), u, s)
    ensures r.Some? ==> Newest(EntriesOf(files), u, s, r.value)
  {
    hide HigherNumberIsNewer, EntriesOf, NewestFirst, Newest, Unseen;
    var tmp: seq<File> := [];
    for i := 0 to |files|
      invariant forall f :: f in tmp <==> f in files[..i] && Smallest(f).user <= u <= Largest(f).user
      invariant DistinctNumbers(tmp)
    {
      var f := files[i];
      assert files[..i + 1] == files[..i] + [f];
      assert forall g | g in files[..i] :: g.number != f.number;
      assert forall j | 0 <= j < |tmp| :: tmp[j] in tmp;
      if u >= Smallest(f).user && u <= Largest(f).user {
        tmp := tmp + [f];
      }
    }
    assert files[..|files|] == files;
    var sorted := SortNewestFirst(tmp);
    for i := 0 to |sorted|
      invariant forall j | 0 <= j < i :: Unseen(SetOf(sorted[j].entries), u, s)
    {
      r := PointGet(sorted[i].entries, u, s);
      PointGetIsNewest(sorted[i].entries, u, s);
      if r.Some? {
        FirstHitIsNewest(files, sorted, i, u, s, r.value);
        return;
      }
    }
    FirstHitIsNewest(files, sorted, |sorted|, u, s, Entry(SeekKey(u, s), []));
    r := None;
  }

  lemma {:induction false} FirstHitIsNewest(files: seq<File>, sorted: seq<File>, i: nat, u: UserKey, s: SequenceNumber,
      hit: Entry)
    requires HigherNumberIsNewer(files)
    requires forall f :: f in sorted <==> f in files && Smallest(f).user <= u <= Largest(f).user
    requires NewestFirst(sorted) && i <= |sorted|
    requires forall j | 0 <= j < i :: Unseen(SetOf(sorted[j].entries), u, s)
    requires i < |sorted| ==> Newest(SetOf(sorted[i].entries), u, s, hit)
    ensures i < |sorted| ==> Newest(EntriesOf(files), u, s, hit)
    ensures Unseen(EntriesOf(files), u, s) <==> i == |sorted|
  {
    forall f, e | f in files && e in f.entries && Sees(e, u, s)
      ensures i < |sorted| && e.key.sequence <= hit.key.sequence
    {
      EntryWithinFile(f, e);
      var j :| 0 <= j < |sorted| && sorted[j] == f;
      assert e in SetOf(sorted[j].entries);
      if i < j {
        assert sorted[i] in files && sorted[i].number > sorted[j].number;
      }
    }
    if i < |sorted| {
      assert sorted[i] in files && hit in sorted[i].entries;
    }
  }

  /** Level by level, stopping at the first hit: the answer is the newest visible entry of all. */
  method Get(levels: Levels, u: UserKey, s: SequenceNumber) returns (r: Option<Entry>)
    requires VersionOk(levels)
    ensures r.None? <==> Unseen(AllEntries(levels, 0), u, s)
    ensures r.Some? ==> Newest(AllEntries(levels, 0), u, s, r.value)
  {
    for level := 0 to NUM_LEVELS
      invariant forall l | 0 <= l < level :: Unseen(EntriesOf(levels[l]), u, s)
    {
      var files := levels[level];
      if level == 0 {
        r := GetFromLevel0(files, u, s);
      } else {
        r := GetFromSortedLevel(files, u, s);
      }
      if r.Some? {
        forall l, e | 0 <= l < NUM_LEVELS && e in EntriesOf(levels[l]) && Sees(e, u, s)
          ensures e.key.sequence <= r.value.key.sequence
        {
          if l > level {
            assert Newer(EntriesOf(levels[level]), EntriesOf(levels[l]));
          }
        }
        return;
      }
    }
    r := None;
  }
}
