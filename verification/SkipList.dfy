/** The skip list under a memtable: searches, insertion one link at a time, and readers that run
    beside the inserting thread. */
module SkipLists {
  import opened Format

  const MAX_HEIGHT: nat := 12

  /** Nodes live in an arena and are never freed: a pointer is an index into it. */
  datatype Node = Node(entry: Entry, next: seq<Option<nat>>)

  type Memory = seq<Node>

  const HEAD: nat := 0

  // ---------- The shape of the list ----------

  /** The node before index k of a level's list. */
  function NodeAt(list: seq<nat>, k: nat): nat
    requires k <= |list|
  {
    if k == 0 then HEAD else list[k - 1]
  }

  function LinkAt(list: seq<nat>, k: nat): Option<nat>
    requires k <= |list|
  {
    if k < |list| then Some(list[k]) else None
  }

  predicate HasLevel(m: Memory, x: nat, level: nat) {
    x < |m| && level < |m[x].next|
  }

  /** The links of one level, followed from the head, visit exactly the nodes of `list`. */
  ghost predicate Chained(m: Memory, list: seq<nat>, level: nat) {
    && (forall k | 0 <= k < |list| :: list[k] != HEAD && HasLevel(m, list[k], level))
    && HasLevel(m, HEAD, level)
    && forall k | 0 <= k <= |list| :: m[NodeAt(list, k)].next[level] == LinkAt(list, k)
  }

  ghost predicate InArena(m: Memory, list: seq<nat>) {
    forall k | 0 <= k < |list| :: list[k] < |m|
  }

  ghost function Entries(m: Memory, list: seq<nat>): (r: seq<Entry>)
    requires InArena(m, list)
  {
    seq(|list|, k requires 0 <= k < |list| => m[list[k]].entry)
  }

  ghost predicate LevelOk(m: Memory, list: seq<nat>, level: nat) {
    Chained(m, list, level) && Sorted(Entries(m, list))
  }

  ghost predicate SublistOf(upper: seq<nat>, lower: seq<nat>) {
    forall k | 0 <= k < |upper| :: upper[k] in lower
  }

  /** Every level is a sorted sublist of the level below. */
  ghost predicate ListsOk(m: Memory, lists: seq<seq<nat>>) {
    && |lists| == MAX_HEIGHT
    && (forall l | 0 <= l < MAX_HEIGHT :: LevelOk(m, lists[l], l))
    && (forall l | 1 <= l < MAX_HEIGHT :: SublistOf(lists[l], lists[l - 1]))
  }

  // ---------- One step of a search ----------

  /** Is the node before the target? No node counts as infinitely large, and so does no target. */
  predicate KeyIsAfterNode(target: Option<InternalKey>, m: Memory, n: Option<nat>)
    requires n.Some? ==> n.value < |m|
  {
    n.Some? && (target.Some? ==> Compare(m[n.value].entry.key, target.value) < 0)
  }

  /** How many entries come before the target. */
  ghost function Rank(es: seq<Entry>, target: Option<InternalKey>): (r: nat)
    ensures r <= |es|
  {
    if target.Some? then SeekIndex(es, target.value) else |es|
  }

  /** A search has come to x on a level: x is the head, or before the target. */
  ghost predicate Reached(m: Memory, list: seq<nat>, target: Option<InternalKey>, x: nat, k: nat)
    requires InArena(m, list)
  {
    k <= Rank(Entries(m, list), target) && x == NodeAt(list, k)
  }

  lemma {:induction false} LevelInArena(m: Memory, list: seq<nat>, level: nat)
    requires LevelOk(m, list, level)
    ensures InArena(m, list)
  {
  }

  /** What a search reads on a level: the next node, which is before the target exactly when the
      search has not yet come to the last node before it. */
  lemma {:induction false} SearchReads(m: Memory, list: seq<nat>, level: nat, target: Option<InternalKey>, x: nat,
      k: nat)
    requires LevelOk(m, list, level) && Reached(m, list, target, x, k)
    ensures HasLevel(m, x, level) && m[x].next[level] == LinkAt(list, k)
    ensures LinkAt(list, k).Some? ==> LinkAt(list, k).value < |m|
    ensures KeyIsAfterNode(target, m, LinkAt(list, k)) <==> k < Rank(Entries(m, list), target)
    ensures k < Rank(Entries(m, list), target) ==> k < |list| && Reached(m, list, target, list[k], k + 1)
  {
    hide Less, Sorted, Compare;
    if k < |list| {
      assert m[list[k]].entry == Entries(m, list)[k];
    }
  }

  /** Dropping a level: the node is on the level below too, and there it is still before the target. */
  lemma {:induction false} SearchDrops(m: Memory, upper: seq<nat>, lower: seq<nat>, level: nat,
                                       target: Option<InternalKey>, x: nat, k: nat) returns (j: nat)
    requires level > 0 && LevelOk(m, upper, level) && LevelOk(m, lower, level - 1) && SublistOf(upper, lower)
    requires Reached(m, upper, target, x, k)
    ensures Reached(m, lower, target, x, j)
  {
    hide Less, Sorted, Compare;
    if k == 0 {
      j := 0;
    } else {
      assert upper[k - 1] in lower;
      var i :| 0 <= i < |lower| && lower[i] == x;
      j := i + 1;
      assert Entries(m, lower)[i] == Entries(m, upper)[k - 1];
    }
  }

  // ---------- Linking one node ----------

  /** The list with x spliced in at index k. */
  function Spliced(list: seq<nat>, k: nat, x: nat): seq<nat>
    requires k <= |list|
  {
    list[..k] + [x] + list[k..]
  }

  /** Where the insertion of x goes on a level. */
  ghost predicate Fits(m: Memory, list: seq<nat>, level: nat, x: nat, before: nat)
    requires InArena(m, list)
  {
    && x != HEAD && HasLevel(m, x, level) && x !in list
    && (forall k | 0 <= k < |list| :: m[list[k]].entry.key != m[x].entry.key)
    && before == NodeAt(list, SeekIndex(Entries(m, list), m[x].entry.key))
  }

  /** Point a new node at what its predecessor points at. No reader can see this yet. */
  function Prepare(m: Memory, x: nat, before: nat, level: nat): Memory
    requires HasLevel(m, x, level) && HasLevel(m, before, level)
  {
    m[x := m[x].(next := m[x].next[level := m[before].next[level]])]
  }

  /** Publish it: the predecessor now points at the new node. */
  function Publish(m: Memory, x: nat, before: nat, level: nat): Memory
    requires HasLevel(m, before, level)
  {
    m[before := m[before].(next := m[before].next[level := Some(x)])]
  }

  /** The two memories differ at most in the link of one node on one level. */
  ghost predicate SameBut(m: Memory, m': Memory, x: nat, level: nat) {
    && |m'| == |m|
    && (forall y | 0 <= y < |m| :: m'[y].entry == m[y].entry && |m'[y].next| == |m[y].next|)
    && (forall y, l | 0 <= y < |m| && 0 <= l < |m[y].next| && (y != x || l != level) :: m'[y].next[l] == m[y].next[l])
  }

  /** A changed link is not seen on the other levels, nor on its own level before its node is linked. */
  lemma {:induction false} OtherLevelsKept(m: Memory, m': Memory, x: nat, level: nat, list: seq<nat>, l: nat)
    requires LevelOk(m, list, l) && SameBut(m, m', x, level)
    requires l != level || (x != HEAD && x !in list)
    ensures LevelOk(m', list, l) && Entries(m', list) == Entries(m, list)
  {
    hide Sorted;
    assert InArena(m', list);
    assert Entries(m', list) == Entries(m, list);
    forall k | 0 <= k <= |list| ensures m'[NodeAt(list, k)].next[l] == LinkAt(list, k) {
      assert m[NodeAt(list, k)].next[l] == LinkAt(list, k);
    }
  }

  lemma {:induction false} NodesDiffer(m: Memory, list: seq<nat>)
    requires InArena(m, list) && Sorted(Entries(m, list))
    ensures forall a, b | 0 <= a < b < |list| :: list[a] != list[b]
  {
    assert forall k | 0 <= k < |list| :: m[list[k]].entry == Entries(m, list)[k];
  }

  /** Publishing a prepared node splices it into the level's list, in key order. */
  lemma {:induction false} PublishSplices(m: Memory, list: seq<nat>, level: nat, x: nat, before: nat)
    requires LevelOk(m, list, level) && Fits(m, list, level, x, before)
    requires HasLevel(m, before, level) && m[x].next[level] == m[before].next[level]
    ensures var m', list' := Publish(m, x, before, level),
        Spliced(list, SeekIndex(Entries(m, list), m[x].entry.key), x);
            && SameBut(m, m', before, level)
            && LevelOk(m', list', level) && Entries(m', list') == InsertEntry(Entries(m, list), m[x].entry)
  {
    hide Sorted, Less;
    var i := SeekIndex(Entries(m, list), m[x].entry.key);
    var m', list' := Publish(m, x, before, level), Spliced(list, i, x);
    NodesDiffer(m, list);
    SpliceChains(m, list, level, x, i);
    assert Entries(m', list') == InsertEntry(Entries(m, list), m[x].entry);
    InsertEntryHolds(Entries(m, list), m[x].entry);
  }

  lemma {:induction false} SpliceChains(m: Memory, list: seq<nat>, level: nat, x: nat, i: nat)
    requires Chained(m, list, level) && i <= |list| && x != HEAD && HasLevel(m, x, level) && x !in list
    requires forall a, b | 0 <= a < b < |list| :: list[a] != list[b]
    requires m[x].next[level] == m[NodeAt(list, i)].next[level]
    ensures Chained(Publish(m, x, NodeAt(list, i), level), Spliced(list, i, x), level)
  {
    var m', list' := Publish(m, x, NodeAt(list, i), level), Spliced(list, i, x);
    forall k | 0 <= k <= |list'| ensures m'[NodeAt(list', k)].next[level] == LinkAt(list', k) {
      if k < i {
        assert NodeAt(list', k) == NodeAt(list, k);
        assert m[NodeAt(list, k)].next[level] == LinkAt(list, k);
      } else if k > i + 1 {
        assert NodeAt(list', k) == NodeAt(list, k - 1);
        assert m[NodeAt(list, k - 1)].next[level] == LinkAt(list, k - 1);
      } else {
        assert m[NodeAt(list, i)].next[level] == LinkAt(list, i);
      }
    }
  }

  // ---------- The whole list, one publication later ----------

  lemma {:induction false} ListsInArena(m: Memory, lists: seq<seq<nat>>)
    requires ListsOk(m, lists)
    ensures forall l | 0 <= l < MAX_HEIGHT :: InArena(m, lists[l])
  {
    forall l | 0 <= l < MAX_HEIGHT ensures InArena(m, lists[l]) {
      LevelInArena(m, lists[l], l);
    }
  }

  ghost function Contents(m: Memory, lists: seq<seq<nat>>): seq<Entry>
    requires ListsOk(m, lists)
  {
    Entries(m, lists[0])
  }

  /** The lists with x spliced into the level's list. */
  ghost function SplicedAt(m: Memory, lists: seq<seq<nat>>, level: nat, x: nat): seq<seq<nat>>
    requires level < |lists| && InArena(m, lists[level]) && x < |m|
  {
    lists[level := Spliced(lists[level], SeekIndex(Entries(m, lists[level]), m[x].entry.key), x)]
  }

  /** Changing the private link of a node that is not yet on the level changes no list. */
  lemma {:induction false} PrepareKeepsOk(m: Memory, lists: seq<seq<nat>>, level: nat, x: nat, before: nat)
    requires ListsOk(m, lists) && level < MAX_HEIGHT && Fits(m, lists[level], level, x, before)
    requires HasLevel(m, before, level)
    ensures ListsOk(Prepare(m, x, before, level), lists) && SameBut(m, Prepare(m, x, before, level), x, level)
    ensures forall l | 0 <= l < MAX_HEIGHT :: Entries(Prepare(m, x, before, level), lists[l]) == Entries(m, lists[l])
  {
    hide LevelOk, SublistOf;
    var m' := Prepare(m, x, before, level);
    ListsInArena(m, lists);
    forall l | 0 <= l < MAX_HEIGHT ensures LevelOk(m', lists[l], l) && Entries(m', lists[l]) == Entries(m, lists[l]) {
      OtherLevelsKept(m, m', x, level, lists[l], l);
    }
  }

  /** Publishing on one level keeps every level sorted and a sublist of the one below. */
  lemma {:induction false} PublishKeepsOk(m: Memory, lists: seq<seq<nat>>, level: nat, x: nat, before: nat)
    requires ListsOk(m, lists) && level < MAX_HEIGHT && Fits(m, lists[level], level, x, before)
    requires HasLevel(m, before, level) && m[x].next[level] == m[before].next[level]
    requires level > 0 ==> x in lists[level - 1]
    ensures var m', lists' := Publish(m, x, before, level), SplicedAt(m, lists, level, x);
            && SameBut(m, m', before, level) && ListsOk(m', lists')
            && Entries(m', lists'[level]) == InsertEntry(Entries(m, lists[level]), m[x].entry)
            && forall l | 0 <= l < MAX_HEIGHT && l != level :: Entries(m', lists'[l]) == Entries(m, lists[l])
  {
    hide LevelOk, InsertEntry;
    ListsInArena(m, lists);
    var m', lists' := Publish(m, x, before, level), SplicedAt(m, lists, level, x);
    PublishSplices(m, lists[level], level, x, before);
    forall l | 0 <= l < MAX_HEIGHT && l != level
      ensures LevelOk(m', lists'[l], l) && Entries(m', lists[l]) == Entries(m, lists[l])
    {
      OtherLevelsKept(m, m', before, level, lists[l], l);
    }
    SplicedHolds(lists[level], SeekIndex(Entries(m, lists[level]), m[x].entry.key), x);
    forall l | 1 <= l < MAX_HEIGHT ensures SublistOf(lists'[l], lists'[l - 1]) {
      SublistKept(lists[l], lists[l - 1], lists'[l], lists'[l - 1], x);
    }
  }

  lemma {:induction false} SplicedHolds(list: seq<nat>, k: nat, x: nat)
    requires k <= |list|
    ensures forall y :: y in Spliced(list, k, x) <==> y in list || y == x
  {
    InsertedAt(list, k, x);
  }

  lemma {:induction false} SublistKept(upper: seq<nat>, lower: seq<nat>, upper': seq<nat>, lower': seq<nat>, x: nat)
    requires SublistOf(upper, lower)
    requires forall y :: y in upper' ==> y in upper || (y == x && x in lower')
    requires forall y :: y in lower ==> y in lower'
    ensures SublistOf(upper', lower')
  {
    forall k | 0 <= k < |upper'| ensures upper'[k] in lower' {
      if upper'[k] in upper {
        var j :| 0 <= j < |upper| && upper[j] == upper'[k];
      } else {
        assert upper'[k] in upper';
      }
    }
  }

  // ---------- The inserting thread ----------

  /** Between insertions, or with node x linked on the levels below `level`. */
  datatype Writer = Idle | Linking(x: nat, prev: seq<nat>, level: nat, prepared: bool)

  ghost predicate WriterOk(m: Memory, lists: seq<seq<nat>>, w: Writer)
    requires ListsOk(m, lists)
  {
    w.Linking? ==>
      && w.x < |m| && w.level < |m[w.x].next| <= MAX_HEIGHT && |w.prev| == MAX_HEIGHT
      && (forall l | w.level <= l < |m[w.x].next| :: InArena(m, lists[l]) && Fits(m, lists[l], l, w.x, w.prev[l]))
      && (w.level > 0 ==> w.x in lists[w.level - 1])
      && (w.prepared ==> HasLevel(m, w.prev[w.level], w.level)
                         && m[w.x].next[w.level] == m[w.prev[w.level]].next[w.level])
  }

  /** The node a new node is linked behind on a level. */
  ghost function Predecessor(m: Memory, list: seq<nat>, key: InternalKey): nat
    requires InArena(m, list)
  {
    NodeAt(list, SeekIndex(Entries(m, list), key))
  }

  /** A node of the given height, not linked anywhere yet. */
  function NewNode(m: Memory, e: Entry, height: nat): Memory {
    m + [Node(e, seq(height, _ => None))]
  }

  lemma {:induction false} NodesOfAllLevels(m: Memory, lists: seq<seq<nat>>, l: nat, x: nat)
    requires ListsOk(m, lists) && l < MAX_HEIGHT && x in lists[l]
    ensures x in lists[0]
    decreases l
  {
    hide LevelOk;
    if l > 0 {
      var k :| 0 <= k < |lists[l]| && lists[l][k] == x;
      assert SublistOf(lists[l], lists[l - 1]);
      NodesOfAllLevels(m, lists, l - 1, x);
    }
  }

  lemma {:induction false} AllocationKeepsLevel(m: Memory, list: seq<nat>, level: nat, e: Entry, height: nat)
    requires LevelOk(m, list, level)
    ensures LevelOk(NewNode(m, e, height), list, level)
    ensures InArena(NewNode(m, e, height), list) && Entries(NewNode(m, e, height), list) == Entries(m, list)
  {
    hide Sorted;
    var m' := NewNode(m, e, height);
    assert Entries(m', list) == Entries(m, list);
    forall k | 0 <= k <= |list| ensures m'[NodeAt(list, k)].next[level] == LinkAt(list, k) {
      assert m[NodeAt(list, k)].next[level] == LinkAt(list, k);
    }
  }

  ghost predicate KeyIsNew(m: Memory, lists: seq<seq<nat>>, key: InternalKey)
    requires ListsOk(m, lists)
  {
    forall k | 0 <= k < |Contents(m, lists)| :: Contents(m, lists)[k].key != key
  }

  lemma {:induction false} ArenaNotEmpty(m: Memory, lists: seq<seq<nat>>)
    requires ListsOk(m, lists)
    ensures |m| > 0
  {
    assert LevelOk(m, lists[0], 0);
  }

  /** The insertion begins: a new node with nothing linked, and the place it fits on each level. */
  lemma {:induction false} WriterBegins(m: Memory, lists: seq<seq<nat>>, e: Entry, height: nat, prev: seq<nat>)
    requires ListsOk(m, lists) && KeyIsNew(m, lists, e.key) && 1 <= height <= MAX_HEIGHT && |prev| == MAX_HEIGHT
    requires forall l | 0 <= l < height :: InArena(m, lists[l]) && prev[l] == Predecessor(m, lists[l], e.key)
    ensures var m' := NewNode(m, e, height);
            && ListsOk(m', lists) && WriterOk(m', lists, Linking(|m|, prev, 0, false)) && |lists| == MAX_HEIGHT
            && Contents(m', lists) == Contents(m, lists)
  {
    hide LevelOk;
    var m' := NewNode(m, e, height);
    ListsInArena(m, lists);
    forall l | 0 <= l < MAX_HEIGHT
      ensures LevelOk(m', lists[l], l) && InArena(m', lists[l]) && Entries(m', lists[l]) == Entries(m, lists[l])
    {
      AllocationKeepsLevel(m, lists[l], l, e, height);
    }
    forall l | 0 <= l < height ensures Fits(m', lists[l], l, |m|, prev[l]) {
      ArenaNotEmpty(m, lists);
      forall k | 0 <= k < |lists[l]| ensures m[lists[l][k]].entry.key != e.key {
        NodesOfAllLevels(m, lists, l, lists[l][k]);
        var j :| 0 <= j < |lists[0]| && lists[0][j] == lists[l][k];
        assert Contents(m, lists)[j] == m[lists[l][k]].entry;
      }
    }
  }

  lemma {:induction false} FitsKept(m: Memory, m': Memory, list: seq<nat>, l: nat, x: nat, before: nat, y: nat,
      level: nat)
    requires InArena(m, list) && Fits(m, list, l, x, before) && SameBut(m, m', y, level)
    ensures InArena(m', list) && Fits(m', list, l, x, before)
  {
    assert Entries(m', list) == Entries(m, list);
  }

  lemma {:induction false} PredecessorHasLevel(m: Memory, list: seq<nat>, level: nat, x: nat, before: nat)
    requires LevelOk(m, list, level) && Fits(m, list, level, x, before)
    ensures HasLevel(m, before, level)
  {
  }

  /** The private half of a linking step. */
  lemma {:induction false} WriterPrepares(m: Memory, lists: seq<seq<nat>>, w: Writer)
    requires ListsOk(m, lists) && WriterOk(m, lists, w) && w.Linking? && !w.prepared
    ensures HasLevel(m, w.prev[w.level], w.level)
    ensures var m' := Prepare(m, w.x, w.prev[w.level], w.level);
            && ListsOk(m', lists) && WriterOk(m', lists, w.(prepared := true))
                && Contents(m', lists) == Contents(m, lists)
            && SameBut(m, m', w.x, w.level)
  {
    hide LevelOk, Fits;
    assert LevelOk(m, lists[w.level], w.level);
    PredecessorHasLevel(m, lists[w.level], w.level, w.x, w.prev[w.level]);
    PrepareKeepsOk(m, lists, w.level, w.x, w.prev[w.level]);
    var m' := Prepare(m, w.x, w.prev[w.level], w.level);
    forall l | w.level <= l < |m[w.x].next| ensures InArena(m', lists[l]) && Fits(m', lists[l], l, w.x, w.prev[l]) {
      FitsKept(m, m', lists[l], l, w.x, w.prev[l], w.x, w.level);
    }
  }

  function Linked(w: Writer, height: nat): Writer
    requires w.Linking?
  {
    if w.level + 1 < height then w.(level := w.level + 1, prepared := false) else Idle
  }

  /** The public half: one link is published, and the list holds the new entry from the first one on. */
  lemma {:induction false} WriterPublishes(m: Memory, lists: seq<seq<nat>>, w: Writer)
    requires ListsOk(m, lists) && WriterOk(m, lists, w) && w.Linking? && w.prepared
    ensures InArena(m, lists[w.level])
    ensures var m', lists' := Publish(m, w.x, w.prev[w.level], w.level), SplicedAt(m, lists, w.level, w.x);
            && ListsOk(m', lists') && WriterOk(m', lists', Linked(w, |m[w.x].next|))
            && Contents(m', lists') == (if w.level == 0 then InsertEntry(Contents(m, lists), m[w.x].entry)
                else Contents(m, lists))
            && SameBut(m, m', w.prev[w.level], w.level)
  {
    hide LevelOk, Fits, InsertEntry;
    PublishKeepsOk(m, lists, w.level, w.x, w.prev[w.level]);
    var m', lists' := Publish(m, w.x, w.prev[w.level], w.level), SplicedAt(m, lists, w.level, w.x);
    SplicedHolds(lists[w.level], SeekIndex(Entries(m, lists[w.level]), m[w.x].entry.key), w.x);
    forall l | w.level < l < |m[w.x].next| ensures InArena(m', lists'[l]) && Fits(m', lists'[l], l, w.x, w.prev[l]) {
      FitsKept(m, m', lists[l], l, w.x, w.prev[l], w.prev[w.level], w.level);
    }
  }

  /** Both halves of a linking step, as a whole. */
  lemma {:induction false} WriterLinks(m: Memory, lists: seq<seq<nat>>, w: Writer)
    requires ListsOk(m, lists) && WriterOk(m, lists, w) && w.Linking? && !w.prepared
    ensures w.x < |m| && w.level < |w.prev| && HasLevel(m, w.x, w.level) && HasLevel(m, w.prev[w.level], w.level)
    ensures var m1 := Prepare(m, w.x, w.prev[w.level], w.level);
            && ListsOk(m1, lists) && HasLevel(m1, w.prev[w.level], w.level)
            && w.level < |lists| && InArena(m1, lists[w.level]) && |m1| == |m|
            && var m2, lists2 := Publish(m1, w.x, w.prev[w.level], w.level), SplicedAt(m1, lists, w.level, w.x);
            && ListsOk(m2, lists2) && WriterOk(m2, lists2, Linked(w, |m[w.x].next|))
            && Contents(m2, lists2) == (if w.level == 0 then InsertEntry(Contents(m, lists), m[w.x].entry)
                else Contents(m, lists))
            && |m2| == |m| && m2[w.x].entry == m[w.x].entry && |m2[w.x].next| == |m[w.x].next|
            && |lists2| == |lists| && forall l | 0 <= l < |lists| && l != w.level :: lists2[l] == lists[l]
  {
    hide LevelOk, Fits, InsertEntry, SublistOf;
    WriterPrepares(m, lists, w);
    WriterPublishes(Prepare(m, w.x, w.prev[w.level], w.level), lists, w.(prepared := true));
  }

  // ---------- The list and its iterator ----------

  class SkipList {
    var memory: Memory
    var maxHeight: nat
    ghost var lists: seq<seq<nat>>

    ghost predicate Valid()
      reads this
    {
      && ListsOk(memory, lists) && 1 <= maxHeight <= MAX_HEIGHT
      && forall l | maxHeight <= l < MAX_HEIGHT :: lists[l] == []
    }

    /** The entries, in order. */
    ghost function Elements(): seq<Entry>
      requires Valid()
      reads this
    {
      Contents(memory, lists)
    }

    constructor ()
      ensures Valid() && Elements() == []
    {
      // The head's entry is never looked at.
      memory := [Node(Entry(InternalKey(0.0, 0, Deletion), []), seq(MAX_HEIGHT, _ => None))];
      maxHeight := 1;
      lists := seq(MAX_HEIGHT, _ => []);
    }

    /** The first node at or after the target, and the last node before it on every level in use. */
    method FindGreaterOrEqual(target: InternalKey) returns (r: Option<nat>, prev: seq<nat>)
      requires Valid()
      ensures r == LinkAt(lists[0], SeekIndex(Elements(), target))
      ensures |prev| == MAX_HEIGHT
      ensures forall l | 0 <= l < maxHeight ::
          InArena(memory, lists[l]) && prev[l] == Predecessor(memory, lists[l], target)
    {
      hide LevelOk, SublistOf, SeekIndex;
      ListsInArena(memory, lists);
      prev := seq(MAX_HEIGHT, _ => HEAD);
      var x, level := HEAD, maxHeight - 1;
      ghost var k := 0;
      while true
        invariant 0 <= level < maxHeight && |prev| == MAX_HEIGHT
        invariant Reached(memory, lists[level], Some(target), x, k)
        invariant forall l | level < l < maxHeight :: prev[l] == Predecessor(memory, lists[l], target)
        decreases level, |lists[level]| - k
      {
        SearchReads(memory, lists[level], level, Some(target), x, k);
        var next := memory[x].next[level];
        if KeyIsAfterNode(Some(target), memory, next) {
          x, k := next.value, k + 1;
        } else {
          prev := prev[level := x];
          if level == 0 {
            return next, prev;
          }
          k := SearchDrops(memory, lists[level], lists[level - 1], level, Some(target), x, k);
          level := level - 1;
        }
      }
    }

    /** The last node before the target, or the head. */
    method FindLessThan(target: InternalKey) returns (x: nat)
      requires Valid()
      ensures x == Predecessor(memory, lists[0], target)
    {
      hide LevelOk, SublistOf, SeekIndex;
      ListsInArena(memory, lists);
      x := HEAD;
      var level := maxHeight - 1;
      ghost var k := 0;
      while true
        invariant 0 <= level < maxHeight
        invariant Reached(memory, lists[level], Some(target), x, k)
        decreases level, |lists[level]| - k
      {
        SearchReads(memory, lists[level], level, Some(target), x, k);
        var next := memory[x].next[level];
        if next.None? || Compare(memory[next.value].entry.key, target) >= 0 {
          if level == 0 {
            return;
          }
          k := SearchDrops(memory, lists[level], lists[level - 1], level, Some(target), x, k);
          level := level - 1;
        } else {
          x, k := next.value, k + 1;
        }
      }
    }

    /** The last node, or the head. */
    method FindLast() returns (x: nat)
      requires Valid()
      ensures x == NodeAt(lists[0], |lists[0]|)
    {
      hide LevelOk, SublistOf, SeekIndex;
      ListsInArena(memory, lists);
      x := HEAD;
      var level := maxHeight - 1;
      ghost var k := 0;
      while true
        invariant 0 <= level < maxHeight
        invariant Reached(memory, lists[level], None, x, k)
        decreases level, |lists[level]| - k
      {
        SearchReads(memory, lists[level], level, None, x, k);
        var next := memory[x].next[level];
        if next.None? {
          if level == 0 {
            return;
          }
          k := SearchDrops(memory, lists[level], lists[level - 1], level, None, x, k);
          level := level - 1;
        } else {
          x, k := next.value, k + 1;
        }
      }
    }

    /** Link a new node on its levels, lowest first. Between any two links the list is in order. */
    method Insert(e: Entry, height: nat)
      requires Valid() && 1 <= height <= MAX_HEIGHT && KeyIsNew(memory, lists, e.key)
      modifies this
      ensures Valid() && Elements() == InsertEntry(old(Elements()), e)
      ensures maxHeight == if height > old(maxHeight) then height else old(maxHeight)
    {
      hide LevelOk, SublistOf, SeekIndex, InsertEntry, Fits, WriterOk, ListsOk, Contents, HasLevel, Chained;
      ghost var before := Elements();
      var prev := FindPlaces(e.key, height);
      if height > maxHeight {
        maxHeight := height;
      }
      WriterBegins(memory, lists, e, height, prev);
      var x := |memory|;
      memory := NewNode(memory, e, height);
      ghost var w := Linking(x, prev, 0, false);
      var i := 0;
      while i < height
        invariant i <= height && x < |memory| && memory[x].entry == e && |memory[x].next| == height
        invariant ListsOk(memory, lists) && WriterOk(memory, lists, w)
        invariant w == if i < height then Linking(x, prev, i, false) else Idle
        invariant maxHeight == if height > old(maxHeight) then height else old(maxHeight)
        invariant |lists| == MAX_HEIGHT && forall l | maxHeight <= l < MAX_HEIGHT :: lists[l] == []
        invariant Contents(memory, lists) == if i == 0 then before else InsertEntry(before, e)
      {
        WriterLinks(memory, lists, w);
        memory := Prepare(memory, x, prev[i], i);
        lists, memory := SplicedAt(memory, lists, i, x), Publish(memory, x, prev[i], i);
        w := Linked(w, height);
        i := i + 1;
      }
    }

    /** The predecessors of a new node, on levels not in use yet the head. */
    method FindPlaces(key: InternalKey, height: nat) returns (prev: seq<nat>)
      requires Valid() && 1 <= height <= MAX_HEIGHT
      ensures |prev| == MAX_HEIGHT
      ensures forall l | 0 <= l < height :: InArena(memory, lists[l]) && prev[l] == Predecessor(memory, lists[l], key)
    {
      hide LevelOk, SublistOf, SeekIndex;
      ListsInArena(memory, lists);
      var next;
      next, prev := FindGreaterOrEqual(key);
      if height > maxHeight {
        var i := maxHeight;
        while i < height
          invariant maxHeight <= i <= height && |prev| == MAX_HEIGHT
          invariant forall l | 0 <= l < i :: prev[l] == Predecessor(memory, lists[l], key)
        {
          EmptyLevel(memory, lists[i], key);
          prev := prev[i := HEAD];
          i := i + 1;
        }
      }
    }

    method Contains(key: InternalKey) returns (found: bool)
      requires Valid()
      ensures found <==> !KeyIsNew(memory, lists, key)
    {
      var x, prev := FindGreaterOrEqual(key);
      ContentsAt(memory, lists);
      KeyFoundBySeek(Elements(), key);
      found := x.Some? && Compare(key, memory[x.value].entry.key) == 0;
    }
  }

  lemma {:induction false} ContentsAt(m: Memory, lists: seq<seq<nat>>)
    requires ListsOk(m, lists)
    ensures |Contents(m, lists)| == |lists[0]| && Sorted(Contents(m, lists))
    ensures forall k | 0 <= k < |lists[0]| :: lists[0][k] < |m| && Contents(m, lists)[k] == m[lists[0][k]].entry
  {
    assert LevelOk(m, lists[0], 0);
  }

  /** A key is in a sorted run exactly when a seek to it lands on it. */
  lemma {:induction false} KeyFoundBySeek(es: seq<Entry>, key: InternalKey)
    requires Sorted(es)
    ensures (exists k :: 0 <= k < |es| && es[k].key == key) <==>
            SeekIndex(es, key) < |es| && es[SeekIndex(es, key)].key == key
  {
    if k :| 0 <= k < |es| && es[k].key == key {
      RanksInOrder(es, SeekIndex(es, key), k);
    }
  }

  lemma {:induction false} EmptyLevel(m: Memory, list: seq<nat>, key: InternalKey)
    requires list == []
    ensures InArena(m, list) && Predecessor(m, list, key) == HEAD
  {
  }

  /** A cursor over the entries. It keeps only a node, so it stays put while entries are added. */
  class Iterator {
    const list: SkipList
    var node: Option<nat>

    /** The cursor is on the i-th entry, or on none. */
    ghost predicate IsAt(i: Option<nat>)
      requires list.Valid()
      reads this, list
    {
      match i
      case None => node == None
      case Some(k) => k < |list.lists[0]| && node == Some(list.lists[0][k])
    }

    constructor (list: SkipList)
      requires list.Valid()
      ensures this.list == list && IsAt(None)
    {
      this.list := list;
      node := None;
    }

    function Key(): InternalKey
      requires list.Valid() && node.Some? && exists i: nat :: IsAt(Some(i))
      reads this, list
      ensures forall i: nat | IsAt(Some(i)) :: i < |list.Elements()| && Key() == list.Elements()[i].key
    {
      ContentsAt(list.memory, list.lists);
      list.memory[node.value].entry.key
    }

    method Next(ghost i: nat)
      requires list.Valid() && IsAt(Some(i))
      modifies this
      ensures IsAt(if i + 1 < |list.Elements()| then Some(i + 1) else None)
    {
      FollowLink(list.memory, list.lists, i + 1);
      node := list.memory[node.value].next[0];
    }

    /** There are no links back: search again for the last node before this key. */
    method Prev(ghost i: nat)
      requires list.Valid() && IsAt(Some(i))
      modifies this
      ensures IsAt(if i > 0 then Some(i - 1) else None)
    {
      ContentsAt(list.memory, list.lists);
      RankOfOwnKey(list.Elements(), i);
      var x := list.FindLessThan(list.memory[node.value].entry.key);
      HeadNotListed(list.memory, list.lists);
      node := if x == HEAD then None else Some(x);
    }

    method Seek(target: InternalKey)
      requires list.Valid()
      modifies this
      ensures var i := SeekIndex(list.Elements(), target); IsAt(if i < |list.Elements()| then Some(i) else None)
    {
      ContentsAt(list.memory, list.lists);
      var prev;
      node, prev := list.FindGreaterOrEqual(target);
    }

    method SeekToFirst()
      requires list.Valid()
      modifies this
      ensures IsAt(if list.Elements() != [] then Some(0) else None)
    {
      FollowLink(list.memory, list.lists, 0);
      node := list.memory[HEAD].next[0];
    }

    method SeekToLast()
      requires list.Valid()
      modifies this
      ensures IsAt(if list.Elements() != [] then Some(|list.Elements()| - 1) else None)
    {
      ContentsAt(list.memory, list.lists);
      HeadNotListed(list.memory, list.lists);
      var x := list.FindLast();
      node := if x == HEAD then None else Some(x);
    }
  }

  lemma {:induction false} HeadNotListed(m: Memory, lists: seq<seq<nat>>)
    requires ListsOk(m, lists)
    ensures HEAD !in lists[0]
  {
    assert LevelOk(m, lists[0], 0);
  }

  /** The lowest link of the node before index k is the k-th node. */
  lemma {:induction false} FollowLink(m: Memory, lists: seq<seq<nat>>, k: nat)
    requires ListsOk(m, lists) && k <= |lists[0]|
    ensures HasLevel(m, NodeAt(lists[0], k), 0) && m[NodeAt(lists[0], k)].next[0] == LinkAt(lists[0], k)
    ensures |Contents(m, lists)| == |lists[0]|
  {
    assert LevelOk(m, lists[0], 0);
  }

  lemma {:induction false} RankOfOwnKey(es: seq<Entry>, i: nat)
    requires Sorted(es) && i < |es|
    ensures SeekIndex(es, es[i].key) == i
  {
    RanksInOrder(es, SeekIndex(es, es[i].key), i);
    KeyFoundBySeek(es, es[i].key);
    RanksInOrder(es, i, SeekIndex(es, es[i].key));
  }
}
