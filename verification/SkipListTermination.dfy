/** A search of a skip list ends: how many links it reads is bounded by what the list held when it
    began and by how many insertions run beside it. */
module SkipListTermination {
  import opened Format
  import opened SkipLists
  import opened SkipListReaders

  // ---------- How far a search has to go ----------

  /** The entries of a run up to and including a node's; none for the head. */
  ghost function Passed(es: seq<Entry>, m: Memory, x: nat): int
    requires x == HEAD || x < |m|
  {
    if x == HEAD then 0 else SeekIndex(es, m[x].entry.key) + 1
  }

  /** The levels below, and the entries of the bottom level that are still before the target. */
  ghost function Left(c: Configuration): int
    requires Inv(c) && c.reader.Searching?
  {
    var es := Contents(c.memory, c.lists);
    c.reader.level + Rank(es, c.reader.target) - Passed(es, c.memory, c.reader.x)
  }

  /** An insertion that is under way may still put its node in front of a search. */
  ghost function Pending(w: Writer): nat {
    if w.Linking? && w.level == 0 then 1 else 0
  }

  // ---------- Nodes of upper levels ----------

  lemma {:induction false} EntryOnBottom(m: Memory, lists: seq<seq<nat>>, level: nat, x: nat)
    requires ListsOk(m, lists) && level < MAX_HEIGHT && x in lists[level]
    ensures x < |m| && Sorted(Contents(m, lists)) && m[x].entry in Contents(m, lists)
  {
    hide LevelOk, SublistOf, Sorted;
    NodesOfAllLevels(m, lists, level, x);
    LevelSorted(m, lists[0], 0);
    var i :| 0 <= i < |lists[0]| && lists[0][i] == x;
    assert Contents(m, lists)[i] == m[x].entry;
  }

  /** In a sorted run, an entry comes before everything that its key is less than. */
  lemma {:induction false} PassedBefore(es: seq<Entry>, e: Entry, key: InternalKey)
    requires Sorted(es) && e in es && Less(e.key, key)
    ensures SeekIndex(es, e.key) + 1 <= SeekIndex(es, key)
  {
    hide Less;
    var i :| 0 <= i < |es| && es[i] == e;
    NotLessThanItself(e.key);
    assert i < SeekIndex(es, key);
  }

  lemma {:induction false} NotLessThanItself(k: InternalKey)
    ensures !Less(k, k)
  {
  }

  /** A search has not gone past its target. */
  lemma {:induction false} LeftIsNatural(c: Configuration)
    requires Inv(c) && c.reader.Searching?
    ensures Left(c) >= 0
  {
    hide LevelOk, SublistOf, WriterOk, Sorted, Less, Compare;
    var r, m := c.reader, c.memory;
    if r.x != HEAD {
      EntryOnBottom(m, c.lists, r.level, r.x);
      BeforeTarget(Contents(m, c.lists), m[r.x].entry, r.target);
    }
  }

  lemma {:induction false} BeforeTarget(es: seq<Entry>, e: Entry, target: Option<InternalKey>)
    requires Sorted(es) && e in es && (target.Some? ==> Compare(e.key, target.value) < 0)
    ensures SeekIndex(es, e.key) + 1 <= Rank(es, target)
  {
    hide Less, Compare;
    if target.Some? {
      LessIsCompare(e.key, target.value);
      PassedBefore(es, e, target.value);
    } else {
      var i :| 0 <= i < |es| && es[i] == e;
      NotLessThanItself(e.key);
    }
  }

  lemma {:induction false} LessIsCompare(a: InternalKey, b: InternalKey)
    ensures Less(a, b) <==> Compare(a, b) < 0
  {
  }

  // ---------- A read ----------

  /** Each read ends the search or brings it closer to its end. */
  lemma {:induction false} ReadLowers(c: Configuration)
    requires Inv(c) && c.reader.Searching?
    ensures var c' := After(c, ReadLink); Inv(c') && (c'.reader.Searching? ==> Left(c') < Left(c))
  {
    hide LevelOk, SublistOf, OnPath, WriterOk, Sorted, Less, Compare, Contents;
    StepKeepsInv(c, ReadLink);
    var r, m := c.reader, c.memory;
    SearcherReads(c);
    var next := m[r.x].next[r.level];
    if KeyIsAfterNode(r.target, m, next) {
      MoveGoesOn(m, c.lists, r.level, r.target, r.x);
    }
  }

  lemma {:induction false} MoveGoesOn(m: Memory, lists: seq<seq<nat>>, level: nat, target: Option<InternalKey>, x: nat)
    requires ListsOk(m, lists) && level < MAX_HEIGHT && OnPath(m, lists[level], target, x)
    requires HasLevel(m, x, level) && m[x].next[level].Some? && m[x].next[level].value < |m|
    requires KeyIsAfterNode(target, m, m[x].next[level])
    ensures var es, y := Contents(m, lists), m[x].next[level].value; Passed(es, m, x) < Passed(es, m, y)
  {
    hide LevelOk, SublistOf, Sorted, Less, Compare, Contents;
    var list, es := lists[level], Contents(m, lists);
    LevelSorted(m, list, level);
    var k := PathHasIndex(m, list, level, target, x);
    SearchReads(m, list, level, target, x, k);
    NeverToHead(m, list, level, k);
    if k > 0 {
      InOrderOnLevel(Entries(m, list), k);
      assert Entries(m, list)[k - 1] == m[x].entry && Entries(m, list)[k] == m[list[k]].entry;
      EntryOnBottom(m, lists, level, x);
      PassedBefore(es, m[x].entry, m[list[k]].entry.key);
    }
  }

  lemma {:induction false} NeverToHead(m: Memory, list: seq<nat>, level: nat, k: nat)
    requires LevelOk(m, list, level)
    ensures k < |list| ==> list[k] != HEAD
    ensures 0 < k <= |list| ==> NodeAt(list, k) != HEAD
  {
    hide Sorted;
  }

  lemma {:induction false} InOrderOnLevel(es: seq<Entry>, k: nat)
    requires Sorted(es) && 0 < k < |es|
    ensures Less(es[k - 1].key, es[k].key)
  {
  }

  // ---------- Steps of the inserting thread ----------

  /** One entry more: what comes before a key grows by at most that one. */
  lemma {:induction false} SeekAfterInsert(es: seq<Entry>, e: Entry, key: InternalKey)
    requires Sorted(es) && Sorted(InsertEntry(es, e))
    ensures SeekIndex(InsertEntry(es, e), key) == SeekIndex(es, key) + if Less(e.key, key) then 1 else 0
  {
    hide Less;
    var i, r, n := SeekIndex(es, e.key), InsertEntry(es, e), SeekIndex(es, key) + if Less(e.key, key) then 1 else 0;
    PlaceOfInserted(es, e, key);
    forall j | 0 <= j < |r| ensures j < n <==> Less(r[j].key, key) {
      assert r[j] == if j < i then es[j] else if j == i then e else es[j - 1];
    }
    CutAt(r, key, n);
  }

  lemma {:induction false} CutAt(es: seq<Entry>, key: InternalKey, n: nat)
    requires Sorted(es) && n <= |es| && forall j | 0 <= j < |es| :: j < n <==> Less(es[j].key, key)
    ensures SeekIndex(es, key) == n
  {
    hide Less, Sorted;
    assert n < |es| ==> !Less(es[n].key, key);
    assert n > 0 ==> Less(es[n - 1].key, key);
  }

  /** The place of an entry is at or before that of every greater key, and at or after the others. */
  lemma {:induction false} PlaceOfInserted(es: seq<Entry>, e: Entry, key: InternalKey)
    requires Sorted(es)
    ensures if Less(e.key, key) then SeekIndex(es, e.key) <= SeekIndex(es, key)
        else SeekIndex(es, key) <= SeekIndex(es, e.key)
  {
    hide Less;
    var a, b := SeekIndex(es, e.key), SeekIndex(es, key);
    if Less(e.key, key) && b < a {
      Transitive(es[b].key, e.key, key);
    } else if !Less(e.key, key) && a < b {
      Transitive2(es[a].key, key, e.key);
    }
  }

  lemma {:induction false} Transitive(a: InternalKey, b: InternalKey, c: InternalKey)
    requires Less(a, b) && Less(b, c)
    ensures Less(a, c)
  {
  }

  lemma {:induction false} Transitive2(a: InternalKey, b: InternalKey, c: InternalKey)
    requires Less(a, b) && !Less(c, b)
    ensures Less(a, c)
  {
  }

  /** Only the publication of a link on the bottom level puts a search further from its end, and
      only by one entry. */
  lemma {:induction false} LinkRaises(c: Configuration)
    requires Inv(c) && c.writer.Linking? && c.reader.Searching?
    ensures var c' := After(c, Link);
            && Inv(c') && c'.reader == c.reader
            && Left(c') + Pending(c'.writer) <= Left(c) + Pending(c.writer)
  {
    hide LevelOk, SublistOf, OnPath, Sorted, Less, Compare, Contents, InsertEntry, Fits;
    LinkKeepsInv(c);
    var c', w, r := After(c, Link), c.writer, c.reader;
    SameEntries(c);
    LeftOf(c);
    LeftOf(c');
    if w.prepared && w.level == 0 {
      var es, e := Contents(c.memory, c.lists), c.memory[w.x].entry;
      RankAfterInsert(es, e, r.target);
      if r.x != HEAD {
        SeekAfterInsert(es, e, c.memory[r.x].entry.key);
      }
    }
  }

  lemma {:induction false} RankAfterInsert(es: seq<Entry>, e: Entry, target: Option<InternalKey>)
    requires Sorted(es) && Sorted(InsertEntry(es, e))
    ensures Rank(InsertEntry(es, e), target) <= Rank(es, target) + 1
  {
    hide Less;
    if target.Some? {
      SeekAfterInsert(es, e, target.value);
    }
  }

  lemma {:induction false} LeftOf(c: Configuration)
    requires Inv(c)
    ensures Sorted(Contents(c.memory, c.lists))
    ensures c.reader.Searching? ==> c.reader.x == HEAD || c.reader.x < |c.memory|
  {
    hide LevelOk, SublistOf, Sorted, WriterOk;
    LevelSorted(c.memory, c.lists[0], 0);
  }

  lemma {:induction false} SameEntries(c: Configuration)
    requires Inv(c) && c.writer.Linking?
    ensures var m' := After(c, Link).memory;
        |m'| == |c.memory| && forall y | 0 <= y < |m'| :: m'[y].entry == c.memory[y].entry
    ensures After(c, Link).writer == if c.writer.prepared then Linked(c.writer, |c.memory[c.writer.x].next|)
        else c.writer.(prepared := true)
    ensures After(c, Link).reader == c.reader
  {
    hide LevelOk, SublistOf, OnPath, Contents, Fits;
    if c.writer.prepared {
      WriterPublishes(c.memory, c.lists, c.writer);
    } else {
      WriterPrepares(c.memory, c.lists, c.writer);
    }
  }

  /** A new node that no list holds yet changes nothing for a search, but is pending. */
  lemma {:induction false} InsertPends(c: Configuration, e: Entry, height: nat)
    requires Inv(c) && Enabled(c, Insert(e, height)) && c.reader.Searching?
    ensures var c' := After(c, Insert(e, height));
            Inv(c') && c'.reader == c.reader && Left(c') == Left(c) && Pending(c'.writer) == Pending(c.writer) + 1
  {
    hide LevelOk, SublistOf, OnPath, Sorted, Less, Compare, Contents, InsertEntry, KeyIsNew, Places;
    StepKeepsInv(c, Insert(e, height));
    LeftOf(c);
  }

  // ---------- Runs ----------

  ghost function Reads(evs: seq<Event>): nat {
    if evs == [] then 0 else (if evs[0].ReadLink? then 1 else 0) + Reads(evs[1..])
  }

  ghost function Inserts(evs: seq<Event>): nat {
    if evs == [] then 0 else (if evs[0].Insert? then 1 else 0) + Inserts(evs[1..])
  }

  /** One step of a run beside a search: a read pays for itself, an insertion allows one read more. */
  lemma {:induction false} StepBudget(c: Configuration, ev: Event)
    requires Inv(c) && Enabled(c, ev) && c.reader.Searching? && !ev.Start?
    ensures Inv(After(c, ev)) && Left(c) >= 0
    ensures var c' := After(c, ev);
            c'.reader.Searching? ==>
              Left(c') + Pending(c'.writer) + (if ev.ReadLink? then 1 else 0)
              <= Left(c) + Pending(c.writer) + (if ev.Insert? then 1 else 0)
    ensures !After(c, ev).reader.Searching? ==> ev.ReadLink?
  {
    hide LevelOk, SublistOf, OnPath, Sorted, Less, Compare, Contents, InsertEntry, KeyIsNew, Places, ListsOk, WriterOk,
        Left;
    LeftIsNatural(c);
    match ev
    case Insert(e, height) => InsertPends(c, e, height);
    case Link => LinkRaises(c);
    case ReadLink => ReadLowers(c);
  }

  lemma {:induction false} NoReads(c: Configuration, evs: seq<Event>)
    requires Inv(c) && CanRun(c, evs) && !c.reader.Searching?
    requires forall i | 0 <= i < |evs| :: !evs[i].Start?
    ensures Reads(evs) == 0
    decreases |evs|
  {
    hide ListsOk, WriterOk, OnPath;
    if evs != [] {
      StepKeepsInv(c, evs[0]);
      NoReads(After(c, evs[0]), evs[1..]);
    }
  }

  /** However steps interleave, the reads of one search are bounded by how far it has to go and the
      insertions that begin meanwhile. */
  lemma {:induction false} ReadsBounded(c: Configuration, evs: seq<Event>)
    requires Inv(c) && CanRun(c, evs) && c.reader.Searching?
    requires forall i | 0 <= i < |evs| :: !evs[i].Start?
    ensures Reads(evs) <= Left(c) + 1 + Pending(c.writer) + Inserts(evs)
    decreases |evs|
  {
    hide Inv, Left, Enabled, Pending, After;
    LeftIsNatural(c);
    if evs != [] {
      StepBudget(c, evs[0]);
      var c' := After(c, evs[0]);
      if c'.reader.Searching? {
        ReadsBounded(c', evs[1..]);
      } else {
        NoReads(c', evs[1..]);
      }
    }
  }

  /** A search over n entries from height h reads at most n + h links, and one more for each
      insertion that runs beside it: with finitely many insertions it ends. */
  lemma {:induction false} SearchEnds(c: Configuration, target: Option<InternalKey>, height: nat, meanwhile: seq<Event>)
    requires Inv(c) && 1 <= height <= MAX_HEIGHT && Inv(After(c, Start(target, height)))
    requires CanRun(After(c, Start(target, height)), meanwhile)
    requires forall i | 0 <= i < |meanwhile| :: !meanwhile[i].Start?
    ensures Reads(meanwhile) <= |Contents(c.memory, c.lists)| + height + Pending(c.writer) + Inserts(meanwhile)
  {
    hide Contents, ListsOk, WriterOk, OnPath;
    ReadsBounded(After(c, Start(target, height)), meanwhile);
  }
}
