/** The merging iterator: one cursor over several sorted runs. */
module Merger {
  import opened Format

  /** How many entries of a sorted run lie before `key`. */
  function Rank(run: seq<Entry>, key: InternalKey): nat {
    SeekIndex(run, key)
  }

  /** `merged` holds the entries of all runs in key order, each exactly once: the m-th comes from
      place origin[m] = (run, index), so no two runs share a key. */
  ghost predicate IsMergeOf(merged: seq<Entry>, origin: seq<(nat, nat)>, runs: seq<seq<Entry>>) {
    && Sorted(merged) && |origin| == |merged|
    && (forall i | 0 <= i < |runs| :: Sorted(runs[i]))
    && (forall m | 0 <= m < |merged| ::
          origin[m].0 < |runs| && origin[m].1 < |runs[origin[m].0]| && runs[origin[m].0][origin[m].1] == merged[m])
    && (forall i: nat, j: nat | i < |runs| && j < |runs[i]| ::
          var m := Rank(merged, runs[i][j].key); m < |merged| && origin[m] == (i, j))
  }

  lemma {:induction false} RankInMerged(merged: seq<Entry>, origin: seq<(nat, nat)>, runs: seq<seq<Entry>>, i: nat,
      j: nat)
    requires IsMergeOf(merged, origin, runs) && i < |runs| && j < |runs[i]|
    ensures var m := Rank(merged, runs[i][j].key); m < |merged| && merged[m] == runs[i][j]
  {
    hide Sorted, Rank;
  }

  lemma {:induction false} RankIs(run: seq<Entry>, key: InternalKey, n: nat)
    requires Sorted(run) && n <= |run|
    requires forall j | 0 <= j < |run| :: j < n <==> Less(run[j].key, key)
    ensures Rank(run, key) == n
  {
    var r := Rank(run, key);
    var j := if r < n then r else n;
    if j < |run| {
      assert j < r <==> Less(run[j].key, key);
    }
  }

  lemma {:induction false} RankOfEntry(merged: seq<Entry>, m: nat)
    requires Sorted(merged) && m < |merged|
    ensures Rank(merged, merged[m].key) == m
  {
    RankIs(merged, merged[m].key, m);
  }

  /** Every child stands at its first entry not among the first m merged entries. */
  ghost predicate AheadOf(merged: seq<Entry>, runs: seq<seq<Entry>>, pos: seq<int>, m: nat) {
    && m <= |merged| && |pos| == |runs|
    && forall i | 0 <= i < |runs| ::
         && 0 <= pos[i] <= |runs[i]|
         && forall j | 0 <= j < |runs[i]| :: j < pos[i] <==> Rank(merged, runs[i][j].key) < m
  }

  /** Every child stands at its last entry among the first m merged entries. */
  ghost predicate BehindOf(merged: seq<Entry>, runs: seq<seq<Entry>>, pos: seq<int>, m: nat) {
    && m <= |merged| && |pos| == |runs|
    && forall i | 0 <= i < |runs| ::
         && -1 <= pos[i] < |runs[i]|
         && forall j | 0 <= j < |runs[i]| :: j <= pos[i] <==> Rank(merged, runs[i][j].key) < m
  }

  /** The child that holds the m-th merged entry stands right on it. */
  lemma {:induction false} HolderStandsOnIt(merged: seq<Entry>, origin: seq<(nat, nat)>, runs: seq<seq<Entry>>,
      pos: seq<int>, m: nat)
    requires IsMergeOf(merged, origin, runs) && m < |merged|
    requires AheadOf(merged, runs, pos, m) || BehindOf(merged, runs, pos, m + 1)
    ensures |pos| == |runs| && m < |origin| && origin[m].0 < |runs| && pos[origin[m].0] == origin[m].1
    ensures origin[m].1 < |runs[origin[m].0]| && runs[origin[m].0][origin[m].1] == merged[m]
  {
    var (i, j) := origin[m];
    RankOfEntry(merged, m);
    var p := pos[i];
    if 0 <= p < |runs[i]| {
      RankInMerged(merged, origin, runs, i, p);
      var k := Rank(merged, runs[i][p].key);
      RanksInOrder(merged, k, m);
      RanksInOrder(merged, m, k);
    }
  }

  datatype Direction = Forward | Reverse

  class MergingIterator {
    const runs: seq<seq<Entry>>
    ghost const merged: seq<Entry>
    ghost const origin: seq<(nat, nat)>
    var pos: seq<int>               // where each child stands; outside its run when it is invalid
    var current: Option<nat>
    var direction: Direction

    constructor (runs: seq<seq<Entry>>, ghost merged: seq<Entry>, ghost origin: seq<(nat, nat)>)
      requires IsMergeOf(merged, origin, runs)
      ensures Valid() && this.runs == runs && this.merged == merged && At() == None
    {
      this.runs, this.merged, this.origin := runs, merged, origin;
      pos := seq(|runs|, _ => -1);
      current, direction := None, Forward;
    }

    predicate ChildValid(i: nat)
      requires i < |runs| == |pos|
      reads this
    {
      0 <= pos[i] < |runs[i]|
    }

    predicate Shape()
      reads this
    {
      && |pos| == |runs|
      && (current.Some? ==> current.value < |runs| && ChildValid(current.value))
    }

    function Current(): Entry
      requires Shape() && current.Some?
      reads this
    {
      runs[current.value][pos[current.value]]
    }

    /** Going forward every other child is at its first entry past the current key; going back,
        at its last entry before it. */
    ghost predicate Valid()
      reads this
    {
      && Shape() && IsMergeOf(merged, origin, runs)
      && (current.Some? ==>
            forall i | 0 <= i < |runs| && i != current.value ::
              pos[i] == Rank(runs[i], Current().key) - (if direction == Forward then 0 else 1))
    }

    /** The single cursor this iterator stands for: an index into the merged run. */
    ghost function At(): Option<nat>
      requires Shape()
      reads this
    {
      if current.None? then None else Some(Rank(merged, Current().key))
    }

    lemma {:induction false} CurrentIsUnderCursor()
      requires Valid() && current.Some?
      ensures At().value < |merged| && merged[At().value] == Current()
    {
      RankInMerged(merged, origin, runs, current.value, pos[current.value]);
    }

    /** From children that stand ahead of m, the smallest child is the m-th merged entry. */
    method FindSmallest(ghost m: nat)
      requires IsMergeOf(merged, origin, runs) && AheadOf(merged, runs, pos, m)
      modifies this`current
      ensures Shape() && (current == None <==> m == |merged|)
      ensures m < |merged| ==> current.Some? && Current() == merged[m]
    {
      hide IsMergeOf, AheadOf;
      var smallest: Option<nat> := None;
      CutShape(merged, runs, pos, m);
      for i := 0 to |runs|
        invariant smallest.Some? ==> smallest.value < i && ChildValid(smallest.value)
        invariant forall j | 0 <= j < i && ChildValid(j) ::
                    smallest.Some? && !Less(runs[j][pos[j]].key, runs[smallest.value][pos[smallest.value]].key)
      {
        if ChildValid(i) {
          if smallest.None? {
            smallest := Some(i);
          } else if Compare(runs[i][pos[i]].key, runs[smallest.value][pos[smallest.value]].key) < 0 {
            smallest := Some(i);
          }
        }
      }
      current := smallest;
      if m < |merged| {
        HolderStandsOnIt(merged, origin, runs, pos, m);
        assert ChildValid(origin[m].0);
        HeadIsNotEarlier(merged, origin, runs, pos, m, smallest.value);
      } else if smallest.Some? {
        NoHeadAtEnd(merged, origin, runs, pos, smallest.value);
      }
    }

    /** From children that stand behind m, the largest child is the entry before the m-th. */
    method FindLargest(ghost m: nat)
      requires IsMergeOf(merged, origin, runs) && BehindOf(merged, runs, pos, m)
      modifies this`current
      ensures Shape() && (current == None <==> m == 0)
      ensures m > 0 ==> current.Some? && Current() == merged[m - 1]
    {
      hide IsMergeOf, BehindOf;
      var largest: Option<nat> := None;
      CutShape(merged, runs, pos, m);
      var i := |runs| - 1;
      while i >= 0
        invariant -1 <= i < |runs|
        invariant largest.Some? ==> i < largest.value < |runs| && ChildValid(largest.value)
        invariant forall j | i < j < |runs| && ChildValid(j) ::
                    largest.Some? && !Less(runs[largest.value][pos[largest.value]].key, runs[j][pos[j]].key)
      {
        if ChildValid(i) {
          if largest.None? {
            largest := Some(i);
          } else if Compare(runs[i][pos[i]].key, runs[largest.value][pos[largest.value]].key) > 0 {
            largest := Some(i);
          }
        }
        i := i - 1;
      }
      current := largest;
      if m > 0 {
        HolderStandsOnIt(merged, origin, runs, pos, m - 1);
        assert ChildValid(origin[m - 1].0);
        HeadIsNotLater(merged, origin, runs, pos, m, largest.value);
      } else if largest.Some? {
        NoHeadAtStart(merged, origin, runs, pos, largest.value);
      }
    }

    /** A new current entry among children ahead of it, or behind it, is validly placed. */
    lemma {:induction false} PlacedAt(m: nat)
      requires IsMergeOf(merged, origin, runs) && Shape() && m < |merged| && current.Some? && Current() == merged[m]
      requires if direction == Forward then AheadOf(merged, runs, pos, m) else BehindOf(merged, runs, pos, m + 1)
      ensures Valid() && At() == Some(m)
    {
      RankOfEntry(merged, m);
      forall i | 0 <= i < |runs| && i != current.value
        ensures pos[i] == Rank(runs[i], Current().key) - (if direction == Forward then 0 else 1)
      {
        OthersStandOffIt(merged, origin, runs, m, i, current.value, pos[current.value],
                         if direction == Forward then pos[i] else pos[i] + 1,
                         if direction == Forward then m else m + 1);
      }
    }

    method SeekToFirst()
      requires Valid()
      modifies this
      ensures Valid() && At() == if merged == [] then None else Some(0)
    {
      pos := seq(|runs|, i => 0);
      FindSmallest(0);
      direction := Forward;
      if merged != [] {
        PlacedAt(0);
      }
    }

    method SeekToLast()
      requires Valid()
      modifies this
      ensures Valid() && At() == if merged == [] then None else Some(|merged| - 1)
    {
      pos := seq(|runs|, i requires 0 <= i < |runs| => |runs[i]| - 1);
      FindLargest(|merged|);
      direction := Reverse;
      if merged != [] {
        PlacedAt(|merged| - 1);
      }
    }

    method Seek(target: InternalKey)
      requires Valid()
      modifies this
      ensures Valid() && At() == if Rank(merged, target) < |merged| then Some(Rank(merged, target)) else None
    {
      pos := seq(|runs|, i requires 0 <= i < |runs| => Rank(runs[i], target));
      ghost var m := Rank(merged, target);
      SoughtAheadOf(merged, origin, runs, pos, target);
      FindSmallest(m);
      direction := Forward;
      if m < |merged| {
        PlacedAt(m);
      }
    }

    /** Turn around: put every child but the current one at its first entry past the key. */
    method TurnForward()
      requires Valid() && current.Some?
      modifies this`pos, this`direction
      ensures Valid() && direction == Forward && Current() == old(Current())
    {
      var c, key := current.value, Current().key;
      for i := 0 to |runs|
        invariant Shape() && pos[c] == old(pos)[c]
        invariant forall j | 0 <= j < i && j != c :: pos[j] == Rank(runs[j], key)
      {
        if i != c {
          pos := pos[i := Rank(runs[i], key)];
          if ChildValid(i) && Compare(key, runs[i][pos[i]].key) == 0 {
            // The code steps over an equal key here; keys are distinct across runs.
            assert false;
          }
        }
      }
      direction := Forward;
    }

    /** Turn around: put every child but the current one at its last entry before the key. */
    method TurnReverse()
      requires Valid() && current.Some?
      modifies this`pos, this`direction
      ensures Valid() && direction == Reverse && Current() == old(Current())
    {
      var c, key := current.value, Current().key;
      for i := 0 to |runs|
        invariant Shape() && pos[c] == old(pos)[c]
        invariant forall j | 0 <= j < i && j != c :: pos[j] == Rank(runs[j], key) - 1
      {
        if i != c {
          pos := pos[i := Rank(runs[i], key)];
          if ChildValid(i) {
            pos := pos[i := pos[i] - 1];
          } else {
            pos := pos[i := |runs[i]| - 1];
          }
        }
      }
      direction := Reverse;
    }

    method Next()
      requires Valid() && current.Some?
      modifies this
      ensures Valid() && At() == if old(At()).value + 1 < |merged| then Some(old(At()).value + 1) else None
    {
      hide IsMergeOf, AheadOf, BehindOf, Rank, Less;
      ghost var m := At().value;
      if direction != Forward {
        TurnForward();
      }
      CurrentIsUnderCursor();
      StepAhead(merged, origin, runs, pos, current.value, m);
      pos := pos[current.value := pos[current.value] + 1];
      FindSmallest(m + 1);
      if m + 1 < |merged| {
        PlacedAt(m + 1);
      }
    }

    method Prev()
      requires Valid() && current.Some?
      modifies this
      ensures Valid() && At() == if old(At()).value > 0 then Some(old(At()).value - 1) else None
    {
      hide IsMergeOf, AheadOf, BehindOf, Rank, Less;
      ghost var m := At().value;
      if direction != Reverse {
        TurnReverse();
      }
      CurrentIsUnderCursor();
      StepBehind(merged, origin, runs, pos, current.value, m);
      pos := pos[current.value := pos[current.value] - 1];
      FindLargest(m);
      if m > 0 {
        PlacedAt(m - 1);
      }
    }
  }

  lemma {:induction false} CutShape(merged: seq<Entry>, runs: seq<seq<Entry>>, pos: seq<int>, m: nat)
    requires AheadOf(merged, runs, pos, m) || BehindOf(merged, runs, pos, m)
    ensures |pos| == |runs| && m <= |merged|
  {
  }

  /** Children other than the holder of merged[m] stand ahead of m exactly when they stand where
      seeking its key would put them. */
  lemma {:induction false} OthersStandOffIt(merged: seq<Entry>, origin: seq<(nat, nat)>, runs: seq<seq<Entry>>, m: nat,
                         i: nat, c: nat, p: nat, n: nat, cut: nat)
    requires IsMergeOf(merged, origin, runs) && m < |merged| && m <= cut <= m + 1
    requires i < |runs| && c < |runs| && i != c && p < |runs[c]| && runs[c][p] == merged[m] && n <= |runs[i]|
    requires forall j | 0 <= j < |runs[i]| :: j < n <==> Rank(merged, runs[i][j].key) < cut
    ensures Rank(runs[i], merged[m].key) == n
  {
    hide Rank, Sorted;
    RankOfEntry(merged, m);
    forall j | 0 <= j < |runs[i]| ensures j < n <==> Less(runs[i][j].key, merged[m].key) {
      RankInMerged(merged, origin, runs, i, j);
      var k := Rank(merged, runs[i][j].key);
      assert origin[k] == (i, j) && origin[m] == (c, p);
      RanksInOrder(merged, k, m);
    }
    assert Sorted(runs[i]);
    RankIs(runs[i], merged[m].key, n);
  }

  /** When every other child stands past the current entry, stepping over it puts all ahead. */
  lemma {:induction false} StepAhead(merged: seq<Entry>, origin: seq<(nat, nat)>, runs: seq<seq<Entry>>, pos: seq<int>,
      c: nat, m: nat)
    requires IsMergeOf(merged, origin, runs) && |pos| == |runs| && m < |merged| && c < |runs|
    requires 0 <= pos[c] < |runs[c]| && runs[c][pos[c]] == merged[m]
    requires forall i | 0 <= i < |runs| && i != c :: pos[i] == Rank(runs[i], merged[m].key)
    ensures AheadOf(merged, runs, pos[c := pos[c] + 1], m + 1)
  {
    forall i, j | 0 <= i < |runs| && 0 <= j < |runs[i]|
      ensures j < pos[c := pos[c] + 1][i] <==> Rank(merged, runs[i][j].key) < m + 1
    {
      RankAgainst(merged, origin, runs, m, c, pos[c], i, j);
    }
  }

  lemma {:induction false} StepBehind(merged: seq<Entry>, origin: seq<(nat, nat)>, runs: seq<seq<Entry>>,
      pos: seq<int>, c: nat, m: nat)
    requires IsMergeOf(merged, origin, runs) && |pos| == |runs| && m < |merged| && c < |runs|
    requires 0 <= pos[c] < |runs[c]| && runs[c][pos[c]] == merged[m]
    requires forall i | 0 <= i < |runs| && i != c :: pos[i] == Rank(runs[i], merged[m].key) - 1
    ensures BehindOf(merged, runs, pos[c := pos[c] - 1], m)
  {
    forall i, j | 0 <= i < |runs| && 0 <= j < |runs[i]|
      ensures j <= pos[c := pos[c] - 1][i] <==> Rank(merged, runs[i][j].key) < m
    {
      RankAgainst(merged, origin, runs, m, c, pos[c], i, j);
    }
  }

  /** Where entry (i, j) lies relative to the m-th merged entry, which is (c, p). */
  lemma {:induction false} RankAgainst(merged: seq<Entry>, origin: seq<(nat, nat)>, runs: seq<seq<Entry>>, m: nat,
      c: nat, p: nat, i: nat, j: nat)
    requires IsMergeOf(merged, origin, runs) && m < |merged| && c < |runs| && p < |runs[c]| && runs[c][p] == merged[m]
    requires i < |runs| && j < |runs[i]|
    ensures var k := Rank(merged, runs[i][j].key);
            && (i == c ==> (k < m <==> j < p) && (k == m <==> j == p))
            && (i != c ==> k != m && (k < m <==> j < Rank(runs[i], merged[m].key)))
  {
    RankOfEntry(merged, m);
    RankInMerged(merged, origin, runs, i, j);
    var k := Rank(merged, runs[i][j].key);
    assert origin[k] == (i, j) && origin[m] == (c, p);
    RanksInOrder(merged, k, m);
    RanksInOrder(merged, m, k);
    if i == c {
      RanksInOrder(runs[c], j, p);
    } else {
      assert Sorted(runs[i]);
    }
  }

  lemma {:induction false} SoughtAheadOf(merged: seq<Entry>, origin: seq<(nat, nat)>, runs: seq<seq<Entry>>,
      pos: seq<int>, target: InternalKey)
    requires IsMergeOf(merged, origin, runs) && |pos| == |runs|
    requires forall i | 0 <= i < |runs| :: pos[i] == Rank(runs[i], target)
    ensures AheadOf(merged, runs, pos, Rank(merged, target))
  {
    forall i, j | 0 <= i < |runs| && 0 <= j < |runs[i]|
      ensures j < pos[i] <==> Rank(merged, runs[i][j].key) < Rank(merged, target)
    {
      RankInMerged(merged, origin, runs, i, j);
      assert Sorted(runs[i]);
    }
  }

  lemma {:induction false} HeadIsNotEarlier(merged: seq<Entry>, origin: seq<(nat, nat)>, runs: seq<seq<Entry>>,
      pos: seq<int>, m: nat, i: nat)
    requires IsMergeOf(merged, origin, runs) && AheadOf(merged, runs, pos, m) && m < |merged|
    requires i < |runs| && 0 <= pos[i] < |runs[i]|
    ensures runs[i][pos[i]] == merged[m] || Less(merged[m].key, runs[i][pos[i]].key)
  {
    RankInMerged(merged, origin, runs, i, pos[i]);
    RanksInOrder(merged, m, Rank(merged, runs[i][pos[i]].key));
  }

  lemma {:induction false} HeadIsNotLater(merged: seq<Entry>, origin: seq<(nat, nat)>, runs: seq<seq<Entry>>,
      pos: seq<int>, m: nat, i: nat)
    requires IsMergeOf(merged, origin, runs) && BehindOf(merged, runs, pos, m) && 0 < m
    requires i < |runs| && 0 <= pos[i] < |runs[i]|
    ensures runs[i][pos[i]] == merged[m - 1] || Less(runs[i][pos[i]].key, merged[m - 1].key)
  {
    RankInMerged(merged, origin, runs, i, pos[i]);
    RanksInOrder(merged, Rank(merged, runs[i][pos[i]].key), m - 1);
  }

  lemma {:induction false} NoHeadAtEnd(merged: seq<Entry>, origin: seq<(nat, nat)>, runs: seq<seq<Entry>>,
      pos: seq<int>, i: nat)
    requires IsMergeOf(merged, origin, runs) && AheadOf(merged, runs, pos, |merged|) && i < |runs|
    ensures pos[i] == |runs[i]|
  {
    var last := |runs[i]| - 1;
    if last >= 0 {
      RankInMerged(merged, origin, runs, i, last);
    }
  }

  lemma {:induction false} NoHeadAtStart(merged: seq<Entry>, origin: seq<(nat, nat)>, runs: seq<seq<Entry>>,
      pos: seq<int>, i: nat)
    requires IsMergeOf(merged, origin, runs) && BehindOf(merged, runs, pos, 0) && i < |runs|
    ensures pos[i] == -1
  {
    if |runs[i]| > 0 {
      RankInMerged(merged, origin, runs, i, 0);
    }
  }

  // ---------- The merged run exists ----------

  ghost predicate DistinctKeys(es: set<Entry>) {
    forall x, y | x in es && y in es && x.key == y.key :: x == y
  }

  lemma {:induction false} SortedRunOf(es: set<Entry>) returns (run: seq<Entry>)
    requires DistinctKeys(es)
    ensures Sorted(run) && SetOf(run) == es
    decreases es
  {
    if es == {} {
      run := [];
    } else {
      var e :| e in es;
      var rest := SortedRunOf(es - {e});
      forall j | 0 <= j < |rest| ensures rest[j].key != e.key {
        assert rest[j] in SetOf(rest);
      }
      InsertEntryHolds(rest, e);
      run := InsertEntry(rest, e);
    }
  }

  ghost predicate PlaceOf(runs: seq<seq<Entry>>, e: Entry, place: (nat, nat)) {
    place.0 < |runs| && place.1 < |runs[place.0]| && runs[place.0][place.1] == e
  }

  /** Sorted runs that share no key have a merge. */
  lemma {:induction false} MergeExists(runs: seq<seq<Entry>>) returns (merged: seq<Entry>, origin: seq<(nat, nat)>)
    requires forall i | 0 <= i < |runs| :: Sorted(runs[i])
    requires forall p: (nat, nat), q: (nat, nat), x, y | PlaceOf(runs, x, p) && PlaceOf(runs, y, q)
        && x.key == y.key :: p == q
    ensures IsMergeOf(merged, origin, runs)
    ensures forall e :: e in merged <==> exists p: (nat, nat) :: PlaceOf(runs, e, p)
  {
    var es := set i, e | 0 <= i < |runs| && e in runs[i] :: e;
    forall e | e in es ensures exists p: (nat, nat) :: PlaceOf(runs, e, p) {
      var i :| 0 <= i < |runs| && e in runs[i];
      var j :| 0 <= j < |runs[i]| && runs[i][j] == e;
      assert PlaceOf(runs, e, (i, j));
    }
    assert DistinctKeys(es);
    merged := SortedRunOf(es);
    forall e ensures e in merged <==> exists p: (nat, nat) :: PlaceOf(runs, e, p) {
      assert e in merged <==> e in SetOf(merged);
      if p: (nat, nat) :| PlaceOf(runs, e, p) {
        assert e in runs[p.0];
      }
    }
    var n, run := |merged|, merged;
    origin := [];
    while |origin| < n
      invariant |origin| <= n && forall m | 0 <= m < |origin| :: PlaceOf(runs, run[m], origin[m])
    {
      assert run[|origin|] in merged;
      var p: (nat, nat) :| PlaceOf(runs, run[|origin|], p);
      origin := origin + [p];
    }
    forall i: nat, j: nat | i < |runs| && j < |runs[i]|
      ensures var m := Rank(merged, runs[i][j].key); m < |merged| && origin[m] == (i, j)
    {
      assert PlaceOf(runs, runs[i][j], (i, j));
      var k :| 0 <= k < |merged| && merged[k] == runs[i][j];
      RankOfEntry(merged, k);
      assert PlaceOf(runs, merged[k], origin[k]);
    }
  }
}
