/** Version edits and the builder that applies them to a base version. */
module VersionBuilder {
  import opened Format
  import opened Versions

  datatype Edit = Edit(deleted: set<(nat, nat)>, added: seq<(nat, File)>)

  predicate EditOk(e: Edit) {
    && (forall d | d in e.deleted :: d.0 < NUM_LEVELS)
    && (forall i | 0 <= i < |e.added| :: e.added[i].0 < NUM_LEVELS)
  }

  /** The order of files in a level: by smallest key, ties broken by file number. */
  predicate BySmallestKey(f: File, g: File) {
    || Less(Smallest(f), Smallest(g))
    || (Smallest(f) == Smallest(g) && f.number < g.number)
  }

  ghost predicate InOrder(files: seq<File>) {
    forall i, j :: 0 <= i < j < |files| ==> BySmallestKey(files[i], files[j])
  }

  /** A level's contents are determined by the set of its files. */
  lemma {:induction false} InOrderIsCanonical(a: seq<File>, b: seq<File>)
    requires InOrder(a) && InOrder(b)
    requires forall f :: f in a <==> f in b
    ensures a == b
    decreases |a|
  {
    assert a != [] ==> a[0] in b;
    assert b != [] ==> b[0] in a;
    if a != [] && b != [] {
      assert a[0] == b[0];
      forall f ensures f in a[1..] <==> f in b[1..] {
        assert f in a <==> f == a[0] || f in a[1..];
        assert f in b <==> f == b[0] || f in b[1..];
        if f == a[0] {
          assert forall j | 0 <= j < |a[1..]| :: BySmallestKey(a[0], a[1..][j]);
          assert forall j | 0 <= j < |b[1..]| :: BySmallestKey(b[0], b[1..][j]);
        }
      }
      InOrderIsCanonical(a[1..], b[1..]);
      assert a == [a[0]] + a[1..] && b == [b[0]] + b[1..];
    }
  }

  // ---------- One level, functionally ----------

  datatype LevelState = LevelState(deleted: set<nat>, added: seq<File>)

  const UNTOUCHED := LevelState({}, [])

  /** Insertion into an ordered set of files, which ignores an element equal in the order. */
  function InsertFile(files: seq<File>, f: File): (r: seq<File>)
    ensures InOrder(files) ==> InOrder(r)
    ensures forall g | g in r :: g in files || g == f
    ensures forall g | g in files :: g in r
    ensures (forall g | g in files :: g.number != f.number) ==> f in r
  {
    if files == [] then [f]
    else if BySmallestKey(f, files[0]) then
      assert InOrder(files) ==> forall j | 0 <= j < |files| :: BySmallestKey(f, files[j]);
      [f] + files
    else if BySmallestKey(files[0], f) then
      var rest := InsertFile(files[1..], f);
      assert forall j | 0 <= j < |rest| :: rest[j] in rest;
      [files[0]] + rest
    else
      assert files[0] in files;
      files
  }

  function Deletions(e: Edit, level: nat): set<nat> {
    set d | d in e.deleted && d.0 == level :: d.1
  }

  /** Each added file cancels a deletion of its number and joins the added set. */
  function AddAll(st: LevelState, adds: seq<(nat, File)>, level: nat): LevelState {
    if adds == [] then st
    else
      var before := AddAll(st, adds[..|adds| - 1], level);
      var (l, f) := adds[|adds| - 1];
      if l == level then LevelState(before.deleted - {f.number}, InsertFile(before.added, f)) else before
  }

  function ApplyAt(st: LevelState, e: Edit, level: nat): LevelState {
    AddAll(LevelState(st.deleted + Deletions(e, level), st.added), e.added, level)
  }

  /** The merge of two ordered runs, base files first on ties. */
  function Merge(base: seq<File>, added: seq<File>): seq<File> {
    if base == [] then added
    else if added == [] then base
    else if !BySmallestKey(added[0], base[0]) then [base[0]] + Merge(base[1..], added)
    else [added[0]] + Merge(base, added[1..])
  }

  function Live(files: seq<File>, deleted: set<nat>): seq<File> {
    if files == [] then []
    else (if files[0].number in deleted then [] else [files[0]]) + Live(files[1..], deleted)
  }

  /** The files of one level in the version the builder saves. */
  function SaveAt(base: seq<File>, st: LevelState): seq<File> {
    Live(Merge(base, st.added), st.deleted)
  }

  // ---------- The builder ----------

  class Builder {
    const base: Levels
    var levels: seq<LevelState>

    ghost predicate Valid()
      reads this
    {
      |levels| == NUM_LEVELS
    }

    constructor (base: Levels)
      ensures Valid() && this.base == base
      ensures forall l | 0 <= l < NUM_LEVELS :: levels[l] == UNTOUCHED
    {
      this.base := base;
      this.levels := seq(NUM_LEVELS, _ => UNTOUCHED);
    }

    /** Record an edit: all its deletions, then its additions one by one. */
    method Apply(e: Edit)
      requires Valid() && EditOk(e)
      modifies this
      ensures Valid()
      ensures forall l | 0 <= l < NUM_LEVELS :: levels[l] == ApplyAt(old(levels[l]), e, l)
    {
      var del := e.deleted;
      while del != {}
        invariant Valid() && del <= e.deleted
        invariant forall l | 0 <= l < NUM_LEVELS ::
                    levels[l] == old(levels[l]).(deleted := old(levels[l]).deleted
                                                 + (set d | d in e.deleted && d !in del && d.0 == l :: d.1))
        decreases del
      {
        var d :| d in del;
        del := del - {d};
        levels := levels[d.0 := levels[d.0].(deleted := levels[d.0].deleted + {d.1})];
      }
      assert forall l :: (set d | d in e.deleted && d !in del && d.0 == l :: d.1) == Deletions(e, l);
      ghost var start := levels;
      for i := 0 to |e.added|
        invariant Valid()
        invariant forall l | 0 <= l < NUM_LEVELS :: levels[l] == AddAll(start[l], e.added[..i], l)
      {
        assert e.added[..i + 1][..i] == e.added[..i];
        var (level, f) := e.added[i];
        levels := levels[level := LevelState(levels[level].deleted - {f.number}, InsertFile(levels[level].added, f))];
      }
      assert e.added[..|e.added|] == e.added;
    }

    /** Merge each level's base files with the added ones, leaving out the deleted. */
    method SaveTo() returns (v: Levels)
      requires Valid()
      ensures forall l | 0 <= l < NUM_LEVELS :: v[l] == SaveAt(base[l], levels[l])
    {
      v := seq(NUM_LEVELS, _ => []);
      for level := 0 to NUM_LEVELS
        invariant forall l | 0 <= l < level :: v[l] == SaveAt(base[l], levels[l])
      {
        var files := SaveLevel(base[level], levels[level]);
        v := v[level := files];
      }
    }
  }

  /** `v` has been emitted, base[b..] and added[a..] are still to be merged. */
  ghost predicate Emitted(base: seq<File>, st: LevelState, b: nat, a: nat, v: seq<File>)
    requires b <= |base| && a <= |st.added|
  {
    SaveAt(base, st) == v + SaveAt(base[b..], st.(added := st.added[a..]))
  }

  lemma {:induction false} EmitNext(base: seq<File>, st: LevelState, b: nat, a: nat, v: seq<File>)
    requires b <= |base| && a <= |st.added| && Emitted(base, st, b, a, v)
    ensures b < |base| && (a == |st.added| || !BySmallestKey(st.added[a], base[b])) ==>
              Emitted(base, st, b + 1, a, MaybeAddFile(v, st.deleted, base[b]))
    ensures a < |st.added| && (b == |base| || BySmallestKey(st.added[a], base[b])) ==>
              Emitted(base, st, b, a + 1, MaybeAddFile(v, st.deleted, st.added[a]))
    ensures b == |base| && a == |st.added| ==> v == SaveAt(base, st)
  {
    var rest := Merge(base[b..], st.added[a..]);
    if a < |st.added| {
      assert st.added[a..][1..] == st.added[a + 1..];
    }
    if b < |base| {
      assert base[b..][1..] == base[b + 1..];
      assert a == |st.added| ==> rest == base[b..] && Merge(base[b + 1..], []) == base[b + 1..];
    }
  }

  method SaveLevel(base: seq<File>, st: LevelState) returns (v: seq<File>)
    ensures v == SaveAt(base, st)
  {
    hide SaveAt, Live, Merge, MaybeAddFile;
    v := [];
    var b, a := 0, 0;
    assert base[0..] == base && st.added[0..] == st.added;
    while a < |st.added|
      invariant b <= |base| && a <= |st.added| && Emitted(base, st, b, a, v)
    {
      while b < |base| && !BySmallestKey(st.added[a], base[b])
        invariant b <= |base| && Emitted(base, st, b, a, v)
      {
        EmitNext(base, st, b, a, v);
        v := MaybeAddFile(v, st.deleted, base[b]);
        b := b + 1;
      }
      EmitNext(base, st, b, a, v);
      v := MaybeAddFile(v, st.deleted, st.added[a]);
      a := a + 1;
    }
    while b < |base|
      invariant b <= |base| && Emitted(base, st, b, a, v)
    {
      EmitNext(base, st, b, a, v);
      v := MaybeAddFile(v, st.deleted, base[b]);
      b := b + 1;
    }
    EmitNext(base, st, b, a, v);
  }

  function MaybeAddFile(v: seq<File>, deleted: set<nat>, f: File): seq<File> {
    if f.number in deleted then v else v + [f]
  }

  // ---------- What a saved level holds ----------

  lemma {:induction false} MergeHolds(base: seq<File>, added: seq<File>)
    ensures forall f :: f in Merge(base, added) <==> f in base || f in added
    decreases |base| + |added|
  {
    if base == [] || added == [] {
    } else if !BySmallestKey(added[0], base[0]) {
      MergeHolds(base[1..], added);
      assert forall f :: f in base <==> f == base[0] || f in base[1..];
    } else {
      MergeHolds(base, added[1..]);
      assert forall f :: f in added <==> f == added[0] || f in added[1..];
    }
  }

  ghost predicate BeforeAll(f: File, files: seq<File>) {
    forall g | g in files :: BySmallestKey(f, g)
  }

  lemma {:induction false} ConsInOrder(f: File, rest: seq<File>)
    requires BeforeAll(f, rest) && InOrder(rest)
    ensures InOrder([f] + rest)
  {
    forall j | 0 <= j < |rest| ensures BySmallestKey(f, rest[j]) {
      assert rest[j] in rest;
    }
  }

  lemma {:induction false} HeadIsFirst(files: seq<File>)
    requires InOrder(files) && files != []
    ensures BeforeAll(files[0], files[1..]) && InOrder(files[1..])
  {
  }

  ghost predicate NoSharedNumber(base: seq<File>, added: seq<File>) {
    forall f, g | f in base && g in added :: f.number != g.number
  }

  lemma {:induction false} OrderIsTotal(f: File, g: File, h: File)
    ensures BySmallestKey(f, g) && BySmallestKey(g, h) ==> BySmallestKey(f, h)
    ensures f.number != g.number ==> BySmallestKey(f, g) || BySmallestKey(g, f)
  {
  }

  lemma {:induction false} HeadBeforeMerged(head: File, tail: seq<File>, other: seq<File>, rest: seq<File>)
    requires BeforeAll(head, tail) && other != [] && InOrder(other) && BySmallestKey(head, other[0])
    requires forall f | f in rest :: f in tail || f in other
    ensures BeforeAll(head, rest)
  {
    hide BySmallestKey;
    forall f | f in rest ensures BySmallestKey(head, f) {
      if f in other {
        var k :| 0 <= k < |other| && other[k] == f;
        OrderIsTotal(head, other[0], f);
      }
    }
  }

  lemma {:induction false} MergeInOrder(base: seq<File>, added: seq<File>)
    requires InOrder(base) && InOrder(added) && NoSharedNumber(base, added)
    ensures InOrder(Merge(base, added))
    decreases |base| + |added|
  {
    hide BySmallestKey, BeforeAll;
    if base != [] && added != [] {
      assert base[0] in base && added[0] in added;
      OrderIsTotal(base[0], added[0], added[0]);
      assert base == [base[0]] + base[1..] && added == [added[0]] + added[1..];
      HeadIsFirst(base);
      HeadIsFirst(added);
      if !BySmallestKey(added[0], base[0]) {
        MergeHolds(base[1..], added);
        MergeInOrder(base[1..], added);
        HeadBeforeMerged(base[0], base[1..], added, Merge(base[1..], added));
        ConsInOrder(base[0], Merge(base[1..], added));
      } else {
        MergeHolds(base, added[1..]);
        MergeInOrder(base, added[1..]);
        HeadBeforeMerged(added[0], added[1..], base, Merge(base, added[1..]));
        ConsInOrder(added[0], Merge(base, added[1..]));
      }
    }
  }

  lemma {:induction false} LiveHolds(files: seq<File>, deleted: set<nat>)
    ensures forall f :: f in Live(files, deleted) <==> f in files && f.number !in deleted
    ensures InOrder(files) ==> InOrder(Live(files, deleted))
  {
    if files != [] {
      LiveHolds(files[1..], deleted);
      var rest := Live(files[1..], deleted);
      assert forall f :: f in files <==> f == files[0] || f in files[1..];
      if InOrder(files) {
        forall j | 0 <= j < |rest| ensures BySmallestKey(files[0], rest[j]) {
          assert rest[j] in rest;
          var k :| 0 <= k < |files[1..]| && files[1..][k] == rest[j];
        }
      }
    }
  }

  lemma {:induction false} SaveHolds(base: seq<File>, st: LevelState)
    ensures forall f :: f in SaveAt(base, st) <==> (f in base || f in st.added) && f.number !in st.deleted
    ensures InOrder(base) && InOrder(st.added) && NoSharedNumber(base, st.added) ==> InOrder(SaveAt(base, st))
  {
    MergeHolds(base, st.added);
    if InOrder(base) && InOrder(st.added) && NoSharedNumber(base, st.added) {
      MergeInOrder(base, st.added);
    }
    LiveHolds(Merge(base, st.added), st.deleted);
  }

  // ---------- One edit applied to a version ----------

  /** The version after one edit. */
  function Edited(levels: Levels, e: Edit): Levels {
    seq(NUM_LEVELS, l requires 0 <= l < NUM_LEVELS => SaveAt(levels[l], ApplyAt(UNTOUCHED, e, l)))
  }

  method ApplyEdit(current: Levels, e: Edit) returns (v: Levels)
    requires EditOk(e)
    ensures v == Edited(current, e)
  {
    var builder := new Builder(current);
    builder.Apply(e);
    v := builder.SaveTo();
  }

  /** No number added at a level is used there already, added twice, or deleted by the same edit. */
  ghost predicate AddsFresh(base: seq<File>, e: Edit, level: nat) {
    && (forall i, f | 0 <= i < |e.added| && e.added[i].0 == level && f in base :: f.number != e.added[i].1.number)
    && (forall i | 0 <= i < |e.added| && e.added[i].0 == level :: (level, e.added[i].1.number) !in e.deleted)
    && (forall i, j | 0 <= i < j < |e.added| && e.added[i].0 == level == e.added[j].0 ::
          e.added[i].1.number != e.added[j].1.number)
  }

  lemma {:induction false} AddAllHolds(e: Edit, n: nat, level: nat, deleted: set<nat>)
    requires n <= |e.added|
    requires forall i | 0 <= i < n && e.added[i].0 == level :: e.added[i].1.number !in deleted
    requires forall i, j | 0 <= i < j < n && e.added[i].0 == level == e.added[j].0 ::
               e.added[i].1.number != e.added[j].1.number
    ensures var st := AddAll(LevelState(deleted, []), e.added[..n], level);
            && st.deleted == deleted && InOrder(st.added)
            && (forall f | f in st.added :: exists i :: 0 <= i < n && e.added[i] == (level, f))
            && forall i | 0 <= i < n && e.added[i].0 == level :: e.added[i].1 in st.added
  {
    if n > 0 {
      AddAllHolds(e, n - 1, level, deleted);
      assert e.added[..n][..n - 1] == e.added[..n - 1];
    }
  }

  /** The effect of an edit on one level. */
  lemma {:induction false} EditedLevel(base: seq<File>, e: Edit, level: nat)
    requires InOrder(base) && AddsFresh(base, e, level)
    ensures var r := SaveAt(base, ApplyAt(UNTOUCHED, e, level));
            && InOrder(r)
            && forall f :: f in r <==> (f in base && (level, f.number) !in e.deleted) || (level, f) in e.added
  {
    hide Live, Merge, SaveAt, AddAll, InOrder;
    var deleted := Deletions(e, level);
    assert {} + deleted == deleted && e.added[..|e.added|] == e.added;
    AddAllHolds(e, |e.added|, level, deleted);
    var st := ApplyAt(UNTOUCHED, e, level);
    SaveHolds(base, st);
    forall f ensures f in st.added <==> (level, f) in e.added {
      if (level, f) in e.added {
        var i :| 0 <= i < |e.added| && e.added[i] == (level, f);
      }
    }
    forall f: File ensures f.number in deleted <==> (level, f.number) in e.deleted {
    }
  }

  // ---------- Ranges ----------

  predicate RangesDisjoint(f: File, g: File) {
    Less(Largest(f), Smallest(g)) || Less(Largest(g), Smallest(f))
  }

  /** A level in order whose ranges are pairwise disjoint is sorted. */
  lemma {:induction false} DisjointInOrderIsSorted(files: seq<File>)
    requires InOrder(files)
    requires forall f, g | f in files && g in files && f != g :: RangesDisjoint(f, g)
    ensures LevelSorted(files)
  {
    hide Sorted;
    forall i, j | 0 <= i < j < |files| ensures Less(Largest(files[i]), Smallest(files[j])) {
      var f, g := files[i], files[j];
      assert BySmallestKey(f, g);
      EntryWithinFile(g, g.entries[0]);
      EntryWithinFile(f, f.entries[0]);
      assert RangesDisjoint(f, g);
    }
  }

  lemma {:induction false} SortedIsInOrder(files: seq<File>)
    requires LevelSorted(files)
    ensures InOrder(files)
    ensures forall f, g | f in files && g in files && f != g :: RangesDisjoint(f, g)
  {
    hide Sorted, Less;
    forall i, j | 0 <= i < j < |files| ensures BySmallestKey(files[i], files[j]) {
      LargestsIncrease(files, i, j);
    }
  }
}
