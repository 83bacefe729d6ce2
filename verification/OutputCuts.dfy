/** Where a compaction ends its output tables. */
module OutputCuts {
  import opened Format
  import opened Versions

  // ---------- Stops: too much of the level two down has been passed ----------

  /** How many of the grandparents, from the first on, end before a key. */
  function Ended(grandparents: seq<File>, key: InternalKey): (p: nat)
    ensures p <= |grandparents| && forall j | 0 <= j < p :: Less(Largest(grandparents[j]), key)
    ensures p < |grandparents| ==> !Less(Largest(grandparents[p]), key)
  {
    if grandparents == [] || !Less(Largest(grandparents[0]), key) then 0
    else
      var p := Ended(grandparents[1..], key);
      assert forall j | 1 <= j < 1 + p :: grandparents[j] == grandparents[1..][j - 1];
      1 + p
  }

  lemma {:induction false} EndedIsUnique(grandparents: seq<File>, key: InternalKey, p: nat)
    requires p <= |grandparents| && forall j | 0 <= j < p :: Less(Largest(grandparents[j]), key)
    requires p < |grandparents| ==> !Less(Largest(grandparents[p]), key)
    ensures Ended(grandparents, key) == p
  {
  }

  /** The size of the grandparents that end between two keys. */
  function BytesPassed(grandparents: seq<File>, from: InternalKey, to: InternalKey): nat {
    var a, b := Ended(grandparents, from), Ended(grandparents, to);
    if a <= b then TotalFileSize(grandparents[a..b]) else 0
  }

  /** The entry from whose key on bytes are counted before entry n: the last stop, or the first entry. */
  ghost function CountedFrom(input: seq<Entry>, grandparents: seq<File>, limit: nat, n: nat): (m: nat)
    requires n <= |input|
    ensures m < n || m == n == 0
    decreases n, 0
  {
    if n <= 1 then 0
    else if StopsAt(input, grandparents, limit, n - 1) then n - 1
    else CountedFrom(input, grandparents, limit, n - 1)
  }

  /** Too much of the level two down has been passed at entry n. */
  ghost predicate StopsAt(input: seq<Entry>, grandparents: seq<File>, limit: nat, n: nat)
    requires n < |input|
    decreases n, 1
  {
    BytesPassed(grandparents, input[CountedFrom(input, grandparents, limit, n)].key, input[n].key) > limit
  }

  /** Between two stops, and before the first one, the bytes counted stay within the limit; at a stop
      they exceed it for the first time. */
  lemma {:induction false} StopsExactly(input: seq<Entry>, grandparents: seq<File>, limit: nat, m: nat, n: nat)
    requires m < n < |input| && (m == 0 || StopsAt(input, grandparents, limit, m))
    requires forall k | m < k < n :: !StopsAt(input, grandparents, limit, k)
    ensures !StopsAt(input, grandparents, limit, 0)
    ensures StopsAt(input, grandparents, limit, n) <==>
        BytesPassed(grandparents, input[m].key, input[n].key) > limit
  {
    hide BytesPassed;
    assert BytesPassed(grandparents, input[0].key, input[0].key) == 0 by {
      NothingPassed(grandparents, input[0].key);
    }
    CountedFromLastStop(input, grandparents, limit, m, n);
  }

  lemma {:induction false} NothingPassed(grandparents: seq<File>, key: InternalKey)
    ensures BytesPassed(grandparents, key, key) == 0
  {
  }

  lemma {:induction false} CountedFromLastStop(input: seq<Entry>, grandparents: seq<File>, limit: nat, m: nat, n: nat)
    requires m < n < |input| && (m == 0 || StopsAt(input, grandparents, limit, m))
    requires forall k | m < k < n :: !StopsAt(input, grandparents, limit, k)
    ensures CountedFrom(input, grandparents, limit, n) == m
  {
    hide BytesPassed;
    if m < n - 1 {
      CountedFromLastStop(input, grandparents, limit, m, n - 1);
    }
  }

  /** Is there a stop past one key, among the first n entries? */
  ghost predicate StopsSince(input: seq<Entry>, grandparents: seq<File>, limit: nat, key: InternalKey, n: nat)
    requires n <= |input|
  {
    exists m: nat :: m < n && StopsAt(input, grandparents, limit, m) && Less(key, input[m].key)
  }

  /** Is there one past this key and not past that? */
  ghost predicate StopsBetween(input: seq<Entry>, grandparents: seq<File>, limit: nat, a: InternalKey, b: InternalKey) {
    exists m: nat :: m < |input| && StopsAt(input, grandparents, limit, m) && Less(a, input[m].key)
        && !Less(b, input[m].key)
  }

  // ---------- Tables ----------

  /** What the cuts depend on. */
  datatype Cutting = Cutting(input: seq<Entry>, grandparents: seq<File>, maxFileSize: nat,
                             builtSize: seq<Entry> -> nat) {
    ghost predicate Since(key: InternalKey, n: nat)
      requires n <= |input|
    {
      StopsSince(input, grandparents, 10 * maxFileSize, key, n)
    }

    ghost predicate Between(a: InternalKey, b: InternalKey) {
      StopsBetween(input, grandparents, 10 * maxFileSize, a, b)
    }

    /** A table ends before the next entry if it is big enough, or if too much of the level two down has
        been passed. */
    ghost predicate Ends(table: seq<Entry>, next: Entry) {
      table != [] && (builtSize(table) >= maxFileSize || Between(table[|table| - 1].key, next.key))
    }

    ghost function Ending(): (seq<Entry>, Entry) -> bool {
      (table, next) => Ends(table, next)
    }

    /** The tables end where they have to, and after the last entry. */
    ghost predicate CutRight(tables: seq<seq<Entry>>) {
      CutWhere(tables, Ending())
    }
  }

  // ---------- Table by table ----------

  /** After the stops among the first n entries: the outputs are cut right, also with the table that
      is open; if none is, there was a reason to close the last one. */
  ghost predicate CutSoFar(cut: Cutting, closed: seq<seq<Entry>>, open: seq<Entry>, n: nat)
    requires n <= |cut.input|
  {
    if open == [] then
      && cut.CutRight(closed)
      && (closed != [] ==>
          var last := closed[|closed| - 1];
          last != [] && (cut.builtSize(last) >= cut.maxFileSize || cut.Since(last[|last| - 1].key, n)))
    else
      && cut.CutRight(closed + [open])
      && cut.builtSize(open) < cut.maxFileSize && !cut.Since(open[|open| - 1].key, n)
  }

  lemma {:induction false} MoreBytes(grandparents: seq<File>, a: InternalKey, b: InternalKey, c: InternalKey)
    requires !Less(b, a) && !Less(c, b)
    ensures Ended(grandparents, a) <= Ended(grandparents, b) <= Ended(grandparents, c)
    ensures BytesPassed(grandparents, a, c) == BytesPassed(grandparents, a, b)
        + TotalFileSize(grandparents[Ended(grandparents, b)..Ended(grandparents, c)])
  {
    hide TotalFileSize;
    TotalOfBoth(grandparents, Ended(grandparents, a), Ended(grandparents, b), Ended(grandparents, c));
  }

  lemma {:induction false} TotalOfBoth(files: seq<File>, a: nat, b: nat, c: nat)
    requires a <= b <= c <= |files|
    ensures TotalFileSize(files[a..c]) == TotalFileSize(files[a..b]) + TotalFileSize(files[b..c])
    decreases c - b
  {
    hide TotalFileSize;
    if b == c {
      assert files[b..c] == [];
      NoFilesNoBytes();
    } else {
      TotalOfBoth(files, a, b, c - 1);
      TotalOfNext(files, a, c - 1);
      TotalOfNext(files, b, c - 1);
    }
  }

  lemma {:induction false} NoFilesNoBytes()
    ensures TotalFileSize([]) == 0
  {
  }

  lemma {:induction false} CountedNext(input: seq<Entry>, grandparents: seq<File>, limit: nat, n: nat)
    requires n < |input|
    ensures CountedFrom(input, grandparents, limit, n + 1)
        == if StopsAt(input, grandparents, limit, n) then n else CountedFrom(input, grandparents, limit, n)
  {
    hide BytesPassed;
  }

  lemma {:induction false} SinceNext(cut: Cutting, key: InternalKey, n: nat)
    requires n < |cut.input|
    ensures cut.Since(key, n + 1) <==>
        cut.Since(key, n) || (StopsAt(cut.input, cut.grandparents, 10 * cut.maxFileSize, n)
                              && Less(key, cut.input[n].key))
  {
    hide StopsAt, Less;
    if StopsAt(cut.input, cut.grandparents, 10 * cut.maxFileSize, n) && Less(key, cut.input[n].key) {
      assert n < n + 1;
    }
  }

  lemma {:induction false} SinceIsBetween(cut: Cutting, key: InternalKey, n: nat)
    requires n < |cut.input| && Sorted(cut.input)
    ensures cut.Since(key, n + 1) <==> cut.Between(key, cut.input[n].key)
    ensures !cut.Since(cut.input[n].key, n + 1)
  {
    hide StopsAt;
    forall m: nat | m < |cut.input| ensures m <= n <==> !Less(cut.input[n].key, cut.input[m].key) {
      RanksInOrder(cut.input, m, n);
    }
  }

  /** The stop before entry n, if there is one, closes the table that is open. */
  lemma {:induction false} StopHandled(cut: Cutting, closed: seq<seq<Entry>>, open: seq<Entry>, n: nat)
    requires n < |cut.input| && CutSoFar(cut, closed, open, n)
    requires open != [] ==> Less(open[|open| - 1].key, cut.input[n].key)
    ensures if StopsAt(cut.input, cut.grandparents, 10 * cut.maxFileSize, n) && open != []
            then CutSoFar(cut, closed + [open], [], n + 1) else CutSoFar(cut, closed, open, n + 1)
  {
    hide StopsAt, Less, Cutting.CutRight, Cutting.Since;
    if open != [] {
      SinceNext(cut, open[|open| - 1].key, n);
    } else if closed != [] && closed[|closed| - 1] != [] {
      SinceNext(cut, closed[|closed| - 1][|closed[|closed| - 1]| - 1].key, n);
    }
  }

  /** Entry n goes into the table that is open, or a new one, and closes it if it is big enough. */
  lemma {:induction false} EntryHandled(cut: Cutting, closed: seq<seq<Entry>>, open: seq<Entry>, n: nat)
    requires n < |cut.input| && Sorted(cut.input) && CutSoFar(cut, closed, open, n + 1)
    ensures var more := open + [cut.input[n]];
            if cut.builtSize(more) >= cut.maxFileSize
            then CutSoFar(cut, closed + [more], [], n + 1) else CutSoFar(cut, closed, more, n + 1)
  {
    hide StopsAt, Less, Cutting.Since, Cutting.Between, Sorted;
    var e := cut.input[n];
    var more := open + [e];
    SinceIsBetween(cut, e.key, n);
    if open == [] {
      assert more == [e];
      if closed != [] {
        var last := closed[|closed| - 1];
        SinceIsBetween(cut, last[|last| - 1].key, n);
      }
      NewPart(closed, e, cut.Ending());
    } else {
      SinceIsBetween(cut, open[|open| - 1].key, n);
      LastPartGrows(closed, open, e, cut.Ending());
    }
  }

  lemma {:induction false} NothingCut(cut: Cutting)
    ensures CutSoFar(cut, [], [], 0)
  {
  }

  lemma {:induction false} LastClosed(cut: Cutting, closed: seq<seq<Entry>>, open: seq<Entry>, n: nat)
    requires n <= |cut.input| && CutSoFar(cut, closed, open, n)
    ensures cut.CutRight(if open == [] then closed else closed + [open])
  {
    hide Cutting.CutRight, Cutting.Since;
  }
}
