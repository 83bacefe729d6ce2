/** Searches of a skip list that run while a node is being inserted: every read and every
    published link is a step of its own, in any order. */
module SkipListReaders {
  import opened Format
  import opened SkipLists

  /** One search; all three kinds take the same steps and differ in what they report. */
  datatype Reader =
    | NotReading
    | Searching(target: Option<InternalKey>, x: nat, level: nat)
    | Found(target: Option<InternalKey>, x: nat, next: Option<nat>)

  /** `lists` only records what following the links from the head would visit (LinksFixLists). */
  datatype Configuration = Configuration(memory: Memory, lists: seq<seq<nat>>, writer: Writer, reader: Reader)

  datatype Event =
    | Insert(entry: Entry, height: nat)
    | Link
    | Start(target: Option<InternalKey>, height: nat)
    | ReadLink

  /** Following the links from the head determines what a level holds. */
  lemma {:induction false} LinksFixLists(m: Memory, a: seq<nat>, b: seq<nat>, level: nat, k: nat)
    requires Chained(m, a, level) && Chained(m, b, level) && k <= |a|
    ensures k <= |b| && a[..k] == b[..k] && (k == |a| ==> a == b)
  {
    if k > 0 {
      LinksFixLists(m, a, b, level, k - 1);
      assert NodeAt(a, k - 1) == NodeAt(b, k - 1) by {
        assert k > 1 ==> a[..k - 1][k - 2] == b[..k - 1][k - 2];
      }
      assert LinkAt(a, k - 1) == LinkAt(b, k - 1);
      assert a[..k] == a[..k - 1] + [a[k - 1]] && b[..k] == b[..k - 1] + [b[k - 1]];
    }
    if k == |a| {
      assert NodeAt(a, k) == NodeAt(b, k) by {
        assert k > 0 ==> a[..k][k - 1] == b[..k][k - 1];
      }
      assert LinkAt(a, k) == LinkAt(b, k);
    }
  }

  // ---------- Steps ----------

  /** A search is at the head, or at a node of its level that is before its target. */
  ghost predicate OnPath(m: Memory, list: seq<nat>, target: Option<InternalKey>, x: nat) {
    x == HEAD || (x in list && x < |m| && KeyIsAfterNode(target, m, Some(x)))
  }

  ghost predicate Inv(c: Configuration) {
    && ListsOk(c.memory, c.lists) && WriterOk(c.memory, c.lists, c.writer)
    && (c.reader.Searching? ==> c.reader.level < MAX_HEIGHT
                                && OnPath(c.memory, c.lists[c.reader.level], c.reader.target, c.reader.x))
  }

  ghost predicate Enabled(c: Configuration, ev: Event)
    requires Inv(c)
  {
    match ev
    case Insert(e, height) => c.writer.Idle? && 1 <= height <= MAX_HEIGHT && KeyIsNew(c.memory, c.lists, e.key)
    case Link => c.writer.Linking?
    case Start(_, height) => 1 <= height <= MAX_HEIGHT
    case ReadLink => c.reader.Searching?
  }

  ghost function Places(m: Memory, lists: seq<seq<nat>>, key: InternalKey): seq<nat>
    requires ListsOk(m, lists)
  {
    ListsInArena(m, lists);
    seq(MAX_HEIGHT, l requires 0 <= l < MAX_HEIGHT => Predecessor(m, lists[l], key))
  }

  /** The next link a search reads, and what it does about it. */
  function Read(m: Memory, r: Reader): Reader
    requires r.Searching? && HasLevel(m, r.x, r.level)
    requires m[r.x].next[r.level].Some? ==> m[r.x].next[r.level].value < |m|
  {
    var next := m[r.x].next[r.level];
    if KeyIsAfterNode(r.target, m, next) then Searching(r.target, next.value, r.level)
    else if r.level == 0 then Found(r.target, r.x, next)
    else Searching(r.target, r.x, r.level - 1)
  }

  ghost function After(c: Configuration, ev: Event): Configuration
    requires Inv(c) && Enabled(c, ev)
  {
    match ev
    case Insert(e, height) =>
      c.(memory := NewNode(c.memory, e, height),
         writer := Linking(|c.memory|, Places(c.memory, c.lists, e.key), 0, false))
    case Link =>
      var w := c.writer;
      if !w.prepared then
        WriterPrepares(c.memory, c.lists, w);
        c.(memory := Prepare(c.memory, w.x, w.prev[w.level], w.level), writer := w.(prepared := true))
      else
        WriterPublishes(c.memory, c.lists, w);
        c.(memory := Publish(c.memory, w.x, w.prev[w.level], w.level),
           lists := SplicedAt(c.memory, c.lists, w.level, w.x),
           writer := Linked(w, |c.memory[w.x].next|))
    case Start(target, height) => c.(reader := Searching(target, HEAD, height - 1))
    case ReadLink =>
      SearcherReads(c);
      c.(reader := Read(c.memory, c.reader))
  }

  // ---------- Searches beside an insertion ----------

  lemma {:induction false} PathHasIndex(m: Memory, list: seq<nat>, level: nat, target: Option<InternalKey>, x: nat)
      returns (k: nat)
    requires LevelOk(m, list, level) && OnPath(m, list, target, x)
    ensures Reached(m, list, target, x, k)
  {
    hide Less, Compare;
    if x == HEAD {
      k := 0;
    } else {
      var i :| 0 <= i < |list| && list[i] == x;
      k := i + 1;
      assert Entries(m, list)[i] == m[x].entry;
      BeforeMeansRanked(Entries(m, list), i, target);
    }
  }

  lemma {:induction false} BeforeMeansRanked(es: seq<Entry>, i: nat, target: Option<InternalKey>)
    requires Sorted(es) && i < |es| && (target.Some? ==> Compare(es[i].key, target.value) < 0)
    ensures i < Rank(es, target)
  {
  }

  lemma {:induction false} SearcherReads(c: Configuration)
    requires Inv(c) && c.reader.Searching?
    ensures var r := c.reader;
            && HasLevel(c.memory, r.x, r.level)
            && (c.memory[r.x].next[r.level].Some? ==> c.memory[r.x].next[r.level].value < |c.memory|)
  {
    hide LevelOk, Chained, OnPath, SublistOf, WriterOk;
    var r := c.reader;
    var k := PathHasIndex(c.memory, c.lists[r.level], r.level, r.target, r.x);
    SearchReads(c.memory, c.lists[r.level], r.level, r.target, r.x, k);
  }

  lemma {:induction false} ReachedIsOnPath(m: Memory, list: seq<nat>, target: Option<InternalKey>, x: nat, k: nat)
    requires InArena(m, list) && Sorted(Entries(m, list)) && Reached(m, list, target, x, k)
    ensures OnPath(m, list, target, x)
  {
    if k > 0 {
      assert Entries(m, list)[k - 1] == m[x].entry;
    }
  }

  /** A read leaves the search on its path, and when it ends it reports the last node before the
      target and the first node after that, as the list is at that moment. */
  lemma {:induction false} ReadStaysOnPath(c: Configuration)
    requires Inv(c) && c.reader.Searching?
    ensures var r := After(c, ReadLink).reader;
            && (r.Searching? ==> r.level < MAX_HEIGHT && OnPath(c.memory, c.lists[r.level], r.target, r.x))
            && (r.Found? ==> && r.x == NodeAt(c.lists[0], Rank(Contents(c.memory, c.lists), r.target))
                             && r.next == LinkAt(c.lists[0], Rank(Contents(c.memory, c.lists), r.target)))
  {
    hide LevelOk, Chained, OnPath, WriterOk, Sorted, Rank;
    var r, m := c.reader, c.memory;
    ListsInArena(m, c.lists);
    var list := c.lists[r.level];
    var k := PathHasIndex(m, list, r.level, r.target, r.x);
    SearchReads(m, list, r.level, r.target, r.x, k);
    LevelSorted(m, list, r.level);
    SearcherReads(c);
    if k < Rank(Entries(m, list), r.target) {
      ReachedIsOnPath(m, list, r.target, list[k], k + 1);
    } else if r.level > 0 {
      var lower := c.lists[r.level - 1];
      var j := SearchDrops(m, list, lower, r.level, r.target, r.x, k);
      LevelSorted(m, lower, r.level - 1);
      ReachedIsOnPath(m, lower, r.target, r.x, j);
    }
  }

  lemma {:induction false} LevelSorted(m: Memory, list: seq<nat>, level: nat)
    requires LevelOk(m, list, level)
    ensures InArena(m, list) && Sorted(Entries(m, list))
  {
  }

  /** Every step keeps the invariant: in every intermediate state of an insertion each level is a
      sorted sublist of the one below, and every search is where it should be. */
  lemma {:induction false} StepKeepsInv(c: Configuration, ev: Event)
    requires Inv(c) && Enabled(c, ev)
    ensures Inv(After(c, ev))
    ensures Contents(After(c, ev).memory, After(c, ev).lists)
         == if ev.Link? && c.writer.prepared && c.writer.level == 0
            then InsertEntry(Contents(c.memory, c.lists), c.memory[c.writer.x].entry)
            else Contents(c.memory, c.lists)
  {
    hide LevelOk, SublistOf, OnPath, InsertEntry, Contents;
    var c', r := After(c, ev), c.reader;
    match ev {
      case Insert(e, height) =>
        ListsInArena(c.memory, c.lists);
        WriterBegins(c.memory, c.lists, e, height, Places(c.memory, c.lists, e.key));
        if r.Searching? {
          PathKept(c.memory, c'.memory, c.lists[r.level], c'.lists[r.level], r.target, r.x);
        }
      case Link =>
        LinkKeepsInv(c);
      case Start(target, height) =>
        HeadOnPath(c.memory, c.lists[height - 1], target);
      case ReadLink =>
        ReadStaysOnPath(c);
    }
  }

  lemma {:induction false} HeadOnPath(m: Memory, list: seq<nat>, target: Option<InternalKey>)
    ensures OnPath(m, list, target, HEAD)
  {
  }

  lemma {:induction false} LinkKeepsInv(c: Configuration)
    requires Inv(c) && c.writer.Linking?
    ensures Inv(After(c, Link))
    ensures Contents(After(c, Link).memory, After(c, Link).lists)
         == if c.writer.prepared && c.writer.level == 0
             then InsertEntry(Contents(c.memory, c.lists), c.memory[c.writer.x].entry)
             else Contents(c.memory, c.lists)
  {
    hide LevelOk, SublistOf, OnPath, InsertEntry, Contents;
    var c', r, w := After(c, Link), c.reader, c.writer;
    if !w.prepared {
      WriterPrepares(c.memory, c.lists, w);
    } else {
      WriterPublishes(c.memory, c.lists, w);
      SplicedHolds(c.lists[w.level], SeekIndex(Entries(c.memory, c.lists[w.level]), c.memory[w.x].entry.key), w.x);
    }
    if r.Searching? {
      PathKept(c.memory, c'.memory, c.lists[r.level], c'.lists[r.level], r.target, r.x);
    }
  }

  /** No step of the inserting thread pushes a search off its path. */
  lemma {:induction false} PathKept(m: Memory, m': Memory, list: seq<nat>, list': seq<nat>,
      target: Option<InternalKey>, x: nat)
    requires OnPath(m, list, target, x)
    requires |m| <= |m'| && forall y | 0 <= y < |m| :: m'[y].entry == m[y].entry
    requires forall y | y in list :: y in list'
    ensures OnPath(m', list', target, x)
  {
  }

  // ---------- Whole runs ----------

  /** Can these events happen in this order? */
  ghost predicate CanRun(c: Configuration, evs: seq<Event>)
    requires Inv(c)
    decreases |evs|
  {
    evs == [] || (Enabled(c, evs[0]) && (StepKeepsInv(c, evs[0]); CanRun(After(c, evs[0]), evs[1..])))
  }

  ghost function Run(c: Configuration, evs: seq<Event>): (r: Configuration)
    requires Inv(c) && CanRun(c, evs)
    ensures Inv(r)
    decreases |evs|
  {
    if evs == [] then c else
      StepKeepsInv(c, evs[0]);
      Run(After(c, evs[0]), evs[1..])
  }

  /** Nothing that is in the list ever leaves it. */
  lemma {:induction false} EntriesStay(c: Configuration, evs: seq<Event>, e: Entry)
    requires Inv(c) && CanRun(c, evs) && e in Contents(c.memory, c.lists)
    ensures e in Contents(Run(c, evs).memory, Run(c, evs).lists)
    decreases |evs|
  {
    hide Inv, Contents, Enabled, ListsOk;
    if evs != [] {
      StepKeepsInv(c, evs[0]);
      StepGrows(c, evs[0], e);
      EntriesStay(After(c, evs[0]), evs[1..], e);
    }
  }

  lemma {:induction false} StepGrows(c: Configuration, ev: Event, e: Entry)
    requires Inv(c) && Enabled(c, ev) && e in Contents(c.memory, c.lists)
    ensures Inv(After(c, ev)) && e in Contents(After(c, ev).memory, After(c, ev).lists)
  {
    hide Contents, ListsOk, OnPath;
    StepKeepsInv(c, ev);
    var es := Contents(c.memory, c.lists);
    if ev.Link? && c.writer.prepared && c.writer.level == 0 {
      var x := c.memory[c.writer.x].entry;
      InsertedAt(es, SeekIndex(es, x.key), x);
    }
  }

  /** A search keeps its target until it ends. */
  lemma {:induction false} TargetKept(c: Configuration, evs: seq<Event>)
    requires Inv(c) && CanRun(c, evs) && c.reader.Searching?
    requires forall i | 0 <= i < |evs| :: !evs[i].Start?
    ensures Run(c, evs).reader.Searching? ==> Run(c, evs).reader.target == c.reader.target
    decreases |evs|
  {
    hide ListsOk, WriterOk, OnPath;
    if evs != [] {
      StepKeepsInv(c, evs[0]);
      var c' := After(c, evs[0]);
      if c'.reader.Searching? {
        TargetKept(c', evs[1..]);
      } else {
        NoNewSearch(c', evs[1..]);
      }
    }
  }

  lemma {:induction false} NoNewSearch(c: Configuration, evs: seq<Event>)
    requires Inv(c) && CanRun(c, evs) && !c.reader.Searching?
    requires forall i | 0 <= i < |evs| :: !evs[i].Start?
    ensures !Run(c, evs).reader.Searching?
    decreases |evs|
  {
    hide ListsOk, WriterOk, OnPath;
    if evs != [] {
      StepKeepsInv(c, evs[0]);
      NoNewSearch(After(c, evs[0]), evs[1..]);
    }
  }

  /** A search for a key that was in the list when the search began finds it, whatever height it
      starts from and whatever is inserted meanwhile. */
  lemma {:induction false} SearchFindsWhatWasThere(c: Configuration, height: nat, meanwhile: seq<Event>, e: Entry)
    requires Inv(c) && 1 <= height <= MAX_HEIGHT && e in Contents(c.memory, c.lists)
    requires CanRun(After(c, Start(Some(e.key), height)), meanwhile)
    requires forall i | 0 <= i < |meanwhile| :: !meanwhile[i].Start?
    ensures var last := Run(After(c, Start(Some(e.key), height)), meanwhile);
            last.reader.Searching? && After(last, ReadLink).reader.Found? ==>
              var next := After(last, ReadLink).reader.next;
              next.Some? && next.value < |last.memory| && last.memory[next.value].entry == e
  {
    var c0 := After(c, Start(Some(e.key), height));
    var last := Run(c0, meanwhile);
    EntriesStay(c0, meanwhile, e);
    TargetKept(c0, meanwhile);
    if last.reader.Searching? && After(last, ReadLink).reader.Found? {
      ReadStaysOnPath(last);
      PresentKeyIsLinked(last.memory, last.lists, e);
    }
  }

  lemma {:induction false} PresentKeyIsLinked(m: Memory, lists: seq<seq<nat>>, e: Entry)
    requires ListsOk(m, lists) && e in Contents(m, lists)
    ensures var next := LinkAt(lists[0], Rank(Contents(m, lists), Some(e.key)));
            next.Some? && next.value < |m| && m[next.value].entry == e
  {
    hide LevelOk, Less;
    ContentsAt(m, lists);
    var es := Contents(m, lists);
    var i :| 0 <= i < |es| && es[i] == e;
    RankOfOwnKey(es, i);
  }

  /** When the inserting thread is done, the list holds the old entries and the new one. */
  lemma {:induction false} InsertionAddsExactly(c: Configuration, e: Entry, height: nat, rest: seq<Event>)
    requires Inv(c) && Enabled(c, Insert(e, height))
    requires Inv(After(c, Insert(e, height))) && CanRun(After(c, Insert(e, height)), rest)
    requires forall i | 0 <= i < |rest| :: !rest[i].Insert?
    ensures var r := Run(After(c, Insert(e, height)), rest);
            Contents(r.memory, r.lists) == if r.writer.Linking? && r.writer.level == 0 then Contents(c.memory, c.lists)
                                           else InsertEntry(Contents(c.memory, c.lists), e)
  {
    hide ListsOk, WriterOk, OnPath, InsertEntry;
    StepKeepsInv(c, Insert(e, height));
    var c' := After(c, Insert(e, height));
    var x := |c.memory|;
    assert c'.memory[x].entry == e;
    InsertionGoesOn(c', rest, Contents(c.memory, c.lists), e);
  }

  /** How far the insertion of e into a list that held `before` has come. */
  ghost predicate Inserting(c: Configuration, before: seq<Entry>, e: Entry)
    requires Inv(c)
  {
    && (c.writer.Linking? ==> c.memory[c.writer.x].entry == e)
    && Contents(c.memory, c.lists)
       == if c.writer.Linking? && c.writer.level == 0 then before else InsertEntry(before, e)
  }

  lemma {:induction false} InsertionGoesOn(c: Configuration, evs: seq<Event>, before: seq<Entry>, e: Entry)
    requires Inv(c) && CanRun(c, evs) && Inserting(c, before, e)
    requires forall i | 0 <= i < |evs| :: !evs[i].Insert?
    ensures Inserting(Run(c, evs), before, e)
    decreases |evs|
  {
    hide Inv, Inserting, Enabled;
    if evs != [] {
      StepKeepsInv(c, evs[0]);
      InsertionStep(c, evs[0], before, e);
      InsertionGoesOn(After(c, evs[0]), evs[1..], before, e);
    }
  }

  lemma {:induction false} InsertionStep(c: Configuration, ev: Event, before: seq<Entry>, e: Entry)
    requires Inv(c) && Enabled(c, ev) && Inserting(c, before, e) && !ev.Insert?
    ensures Inv(After(c, ev)) && Inserting(After(c, ev), before, e)
  {
    hide ListsOk, WriterOk, OnPath, InsertEntry, Contents;
    StepKeepsInv(c, ev);
    if ev.Link? {
      WriterInArena(c);
    }
  }

  lemma {:induction false} WriterInArena(c: Configuration)
    requires Inv(c) && c.writer.Linking?
    ensures After(c, Link).memory[c.writer.x].entry == c.memory[c.writer.x].entry
  {
    hide LevelOk, SublistOf, OnPath, Contents, Fits;
    if c.writer.prepared {
      WriterPublishes(c.memory, c.lists, c.writer);
    } else {
      WriterPrepares(c.memory, c.lists, c.writer);
    }
  }
}
