/** What a finished table file holds, and why a lookup through the index never misses. */
module TableLayout {
  import opened Format
  import opened Coding
  import opened Blocks
  import opened BlockIter
  import opened Bloom
  import opened Comparators
  import opened FilterBlocks
  import opened TableFormat

  // ---------- Entries in blocks ----------

  ghost predicate Ordered(es: seq<KeyValue>) {
    Increasing(es, KeyLess)
  }

  lemma {:induction false} KeyLessIsStrict()
    ensures StrictOrder(KeyLess)
  {
    hide KeyLess;
    forall a: Bytes, b: Bytes, c: Bytes | KeyLess(a, b) && KeyLess(b, c) ensures KeyLess(a, c) {
      KeyLessTransitive(a, b, c);
    }
    forall a: Bytes, b: Bytes | KeyLess(a, b) ensures !KeyLess(b, a) {
      KeyLessAsymmetric(a, b);
    }
  }

  lemma {:induction false} OneMoreBlock(blocks: seq<seq<KeyValue>>, i: nat)
    requires i < |blocks|
    ensures Concat(blocks[..i + 1]) == Concat(blocks[..i]) + blocks[i]
  {
    assert blocks[..i + 1][..i] == blocks[..i];
  }

  lemma {:induction false} ConcatPrefix(blocks: seq<seq<KeyValue>>, i: nat)
    requires i <= |blocks|
    ensures |Concat(blocks[..i])| <= |Concat(blocks)| && Concat(blocks)[..|Concat(blocks[..i])|] == Concat(blocks[..i])
    decreases |blocks| - i
  {
    if i == |blocks| {
      assert blocks[..i] == blocks;
    } else {
      OneMoreBlock(blocks, i);
      ConcatPrefix(blocks, i + 1);
    }
  }

  /** Where an entry of a block is among all entries. */
  lemma {:induction false} ConcatAt(blocks: seq<seq<KeyValue>>, i: nat, a: nat)
    requires i < |blocks| && a < |blocks[i]|
    ensures |Concat(blocks[..i])| + a < |Concat(blocks)| && Concat(blocks)[|Concat(blocks[..i])| + a] == blocks[i][a]
  {
    hide Concat;
    OneMoreBlock(blocks, i);
    ConcatPrefix(blocks, i + 1);
    var n := |Concat(blocks[..i + 1])|;
    assert Concat(blocks)[|Concat(blocks[..i])| + a] == Concat(blocks)[..n][|Concat(blocks[..i])| + a];
  }

  lemma {:induction false} StartsInOrder(blocks: seq<seq<KeyValue>>, i: nat, j: nat)
    requires i < j <= |blocks|
    ensures |Concat(blocks[..i])| + |blocks[i]| <= |Concat(blocks[..j])|
    decreases j
  {
    hide Concat;
    OneMoreBlock(blocks, j - 1);
    if i < j - 1 {
      StartsInOrder(blocks, i, j - 1);
    }
  }

  lemma {:induction false} InOrder(blocks: seq<seq<KeyValue>>, i: nat, a: nat, j: nat, b: nat)
    requires Ordered(Concat(blocks)) && i < |blocks| && a < |blocks[i]| && j < |blocks| && b < |blocks[j]|
    requires i < j || (i == j && a < b)
    ensures KeyLess(blocks[i][a].key, blocks[j][b].key)
  {
    hide Concat, KeyLess;
    ConcatAt(blocks, i, a);
    ConcatAt(blocks, j, b);
    if i < j {
      StartsInOrder(blocks, i, j);
    }
  }

  /** Every entry is in some block. */
  lemma {:induction false} InSomeBlock(blocks: seq<seq<KeyValue>>, e: KeyValue) returns (j: nat, b: nat)
    requires e in Concat(blocks)
    ensures j < |blocks| && b < |blocks[j]| && blocks[j][b] == e
  {
    var n := |blocks| - 1;
    if e in blocks[n] {
      j := n;
      b :| 0 <= b < |blocks[n]| && blocks[n][b] == e;
    } else {
      j, b := InSomeBlock(blocks[..n], e);
    }
  }

  // ---------- Where blocks end ----------

  /** A block ends before the next entry if it is big enough. */
  ghost function Full(interval: nat, blockSize: nat): (seq<KeyValue>, KeyValue) -> bool {
    (es, next) => |EncodedBlock(es, interval)| >= blockSize
  }

  /** Blocks end as soon as they are big enough; only those ended early are smaller. */
  ghost predicate Filled(blocks: seq<seq<KeyValue>>, interval: nat, blockSize: nat, early: set<int>) {
    forall k | 0 <= k < |blocks| ::
      && NoneEarlier(blocks[k], Full(interval, blockSize))
      && (k in early || |EncodedBlock(blocks[k], interval)| >= blockSize)
  }

  /** Only the last block may be smaller. */
  ghost predicate FilledInOrder(blocks: seq<seq<KeyValue>>, interval: nat, blockSize: nat) {
    Filled(blocks, interval, blockSize, {|blocks| - 1})
  }

  /** Then entries, interval and block size determine the blocks. */
  lemma {:induction false} BlocksDetermined(a: seq<seq<KeyValue>>, b: seq<seq<KeyValue>>, interval: nat,
      blockSize: nat)
    requires FilledInOrder(a, interval, blockSize) && FilledInOrder(b, interval, blockSize) && Concat(a) == Concat(b)
    ensures a == b
  {
    hide FilledInOrder, Concat;
    InOrderIsCut(a, interval, blockSize);
    InOrderIsCut(b, interval, blockSize);
    OneWayToCut(a, b, Full(interval, blockSize));
  }

  lemma {:induction false} InOrderIsCut(blocks: seq<seq<KeyValue>>, interval: nat, blockSize: nat)
    requires FilledInOrder(blocks, interval, blockSize)
    ensures CutWhere(blocks, Full(interval, blockSize))
  {
    hide EncodedBlock;
    forall k | 0 <= k < |blocks| - 1 ensures |EncodedBlock(blocks[k], interval)| >= blockSize {
      assert k !in {|blocks| - 1};
    }
  }

  lemma {:induction false} FewerEarly(blocks: seq<seq<KeyValue>>, interval: nat, blockSize: nat, early: set<int>)
    requires Filled(blocks, interval, blockSize, early) && early <= {|blocks| - 1}
    ensures FilledInOrder(blocks, interval, blockSize)
  {
    hide EncodedBlock, NoneEarlier, Full;
  }

  // ---------- The index ----------

  ghost predicate NonEmpty(blocks: seq<seq<KeyValue>>) {
    forall i | 0 <= i < |blocks| :: blocks[i] != []
  }

  function LastOf(es: seq<KeyValue>): Bytes
    requires es != []
  {
    es[|es| - 1].key
  }

  /** The key of an index entry is as short as can be between its block and the next one. */
  ghost predicate Separates(blocks: seq<seq<KeyValue>>, index: seq<KeyValue>)
    requires NonEmpty(blocks)
  {
    && |index| == |blocks|
    && forall i | 0 <= i < |blocks| ::
         index[i].key == if i + 1 < |blocks| then KeySeparator(LastOf(blocks[i]), blocks[i + 1][0].key)
             else KeySuccessor(LastOf(blocks[i]))
  }

  /** An index key is at or after all that its block and earlier ones hold, and before all that
      later ones hold. Unless it is the last key of its block, even its user key is before theirs. */
  lemma {:induction false} IndexKeyBounds(blocks: seq<seq<KeyValue>>, index: seq<KeyValue>, i: nat, j: nat, b: nat)
    requires NonEmpty(blocks) && Ordered(Concat(blocks)) && Separates(blocks, index) && i < |blocks| && j < |blocks|
        && b < |blocks[j]|
    ensures j <= i ==> !KeyLess(index[i].key, blocks[j][b].key)
    ensures j > i ==> KeyLess(index[i].key, blocks[j][b].key)
    ensures j > i ==> index[i].key == LastOf(blocks[i]) || BytesLess(UserOf(index[i].key), UserOf(blocks[j][b].key))
  {
    hide Concat, KeyLess, KeySeparator, KeySuccessor, BytesLess, UserOf;
    var key, e := index[i].key, blocks[j][b].key;
    var last := LastOf(blocks[i]);
    if i + 1 < |blocks| {
      InOrder(blocks, i, |blocks[i]| - 1, i + 1, 0);
      KeySeparatorSeparates(last, blocks[i + 1][0].key);
    } else {
      KeySuccessorFollows(last);
    }
    if j <= i {
      if j < i || b < |blocks[i]| - 1 {
        InOrder(blocks, j, b, i, |blocks[i]| - 1);
      }
      NotLessBefore(key, e, last);
    } else {
      var first := blocks[i + 1][0].key;
      if i + 1 < j || b > 0 {
        InOrder(blocks, i + 1, 0, j, b);
        KeyLessTransitive(key, first, e);
        UsersInOrder(first, e, UserOf(key));
      }
    }
  }

  lemma {:induction false} NotLessBefore(key: Bytes, e: Bytes, last: Bytes)
    requires !KeyLess(key, last) && (e == last || KeyLess(e, last))
    ensures !KeyLess(key, e)
  {
    hide KeyLess;
    if KeyLess(key, e) && e != last {
      KeyLessTransitive(key, e, last);
    }
  }

  lemma {:induction false} UsersInOrder(a: Bytes, b: Bytes, u: Bytes)
    requires KeyLess(a, b)
    ensures BytesLess(u, UserOf(a)) ==> BytesLess(u, UserOf(b))
  {
    hide BytesLess, UserOf;
    if BytesLess(u, UserOf(a)) && BytesLess(UserOf(a), UserOf(b)) {
      BytesLessTransitive(u, UserOf(a), UserOf(b));
    }
  }

  // ---------- The lookup ----------

  predicate Visible(e: KeyValue, user: Bytes, tag: nat) {
    UserOf(e.key) == user && TagOf(e.key) <= tag
  }

  ghost predicate NewestVisible(es: seq<KeyValue>, user: Bytes, tag: nat, e: KeyValue) {
    && e in es && Visible(e, user, tag)
    && forall x | x in es && Visible(x, user, tag) :: TagOf(x.key) <= TagOf(e.key)
  }

  /** The first entry at or after the target. */
  ghost predicate SeekPosition(es: seq<KeyValue>, target: Bytes, i: nat) {
    && i <= |es| && (forall k | 0 <= k < i :: KeyLess(es[k].key, target))
    && (i < |es| ==> !KeyLess(es[i].key, target))
  }

  /** What lies between two versions of a user key is a version of it. */
  lemma {:induction false} BetweenVersions(target: Bytes, k: Bytes, e: Bytes)
    requires !KeyLess(k, target) && !KeyLess(e, k) && UserOf(e) == UserOf(target)
    ensures UserOf(k) == UserOf(target) && TagOf(k) <= TagOf(target) && TagOf(e) <= TagOf(k)
  {
    hide BytesLess, UserOf, TagOf;
    BytesLessTotal(UserOf(k), UserOf(target));
  }

  lemma {:induction false} VisibleIsAtOrAfter(target: Bytes, e: Bytes)
    requires UserOf(e) == UserOf(target) && TagOf(e) <= TagOf(target)
    ensures !KeyLess(e, target)
  {
    hide UserOf, TagOf;
    if BytesLess(UserOf(e), UserOf(e)) {
      BytesLessAsymmetric(UserOf(e), UserOf(e));
    }
  }

  /** No visible entry is newer than the one that the two seeks find: it is in the block that the
      index leads to, although the index key may be greater than all keys of that block. */
  lemma {:induction false} SeeksCover(blocks: seq<seq<KeyValue>>, index: seq<KeyValue>, target: Bytes, i: nat, p: nat,
      j: nat, b: nat)
    requires NonEmpty(blocks) && Ordered(Concat(blocks)) && Separates(blocks, index) && j < |blocks| && b < |blocks[j]|
    requires SeekPosition(index, target, i) && (i < |blocks| ==> SeekPosition(blocks[i], target, p))
    requires Visible(blocks[j][b], UserOf(target), TagOf(target))
    ensures i < |blocks| && p < |blocks[i]| && !KeyLess(blocks[j][b].key, blocks[i][p].key)
  {
    hide Concat, KeyLess, BytesLess, UserOf, TagOf, KeySeparator, KeySuccessor;
    var e := blocks[j][b].key;
    VisibleIsAtOrAfter(target, e);
    LeadsAtOrBefore(blocks, index, target, i, j, b);
    var n := |blocks[i]|;
    if j == i {
      assert !(p > b);
      if p < b {
        InOrder(blocks, i, p, j, b);
        KeyLessAsymmetric(blocks[i][p].key, e);
      }
    } else {
      IndexKeyBounds(blocks, index, i, j, b);
      var k := index[i].key;
      KeyLessAsymmetric(k, e);
      BetweenVersions(target, k, e);
      if BytesLess(UserOf(k), UserOf(e)) {
        BytesLessAsymmetric(UserOf(k), UserOf(e));
      }
      assert k == blocks[i][n - 1].key;
      assert !(p > n - 1);
      InOrder(blocks, i, p, j, b);
      KeyLessAsymmetric(blocks[i][p].key, e);
    }
    NotLessItself(e);
  }

  lemma {:induction false} NotLessItself(e: Bytes)
    ensures !KeyLess(e, e)
  {
    hide KeyLess;
    if KeyLess(e, e) {
      KeyLessAsymmetric(e, e);
    }
  }

  lemma {:induction false} LeadsAtOrBefore(blocks: seq<seq<KeyValue>>, index: seq<KeyValue>, target: Bytes, i: nat,
      j: nat, b: nat)
    requires NonEmpty(blocks) && Ordered(Concat(blocks)) && Separates(blocks, index) && j < |blocks| && b < |blocks[j]|
    requires SeekPosition(index, target, i) && !KeyLess(blocks[j][b].key, target)
    ensures i <= j
  {
    hide Concat, KeyLess, BytesLess, UserOf;
    if j < i {
      IndexKeyBounds(blocks, index, j, j, b);
      KeyLessSplits(index[j].key, blocks[j][b].key, target);
    }
  }

  /** A seek in the index and one in the block it leads to find the newest visible version, if
      there is any; and whatever they find of the user key is visible. */
  lemma {:induction false} SeeksFindNewest(blocks: seq<seq<KeyValue>>, index: seq<KeyValue>, target: Bytes, i: nat,
      p: nat)
    requires NonEmpty(blocks) && Ordered(Concat(blocks)) && Separates(blocks, index)
    requires SeekPosition(index, target, i) && (i < |blocks| ==> SeekPosition(blocks[i], target, p))
    ensures var user, tag := UserOf(target), TagOf(target);
            && (i < |blocks| && p < |blocks[i]| && UserOf(blocks[i][p].key) == user ==>
                NewestVisible(Concat(blocks), user, tag, blocks[i][p]))
            && ((exists e :: e in Concat(blocks) && Visible(e, user, tag)) ==>
                i < |blocks| && p < |blocks[i]| && UserOf(blocks[i][p].key) == user)
  {
    hide Concat, KeyLess, UserOf, TagOf, KeySeparator, KeySuccessor;
    forall e | e in Concat(blocks) && Visible(e, UserOf(target), TagOf(target))
      ensures i < |blocks| && p < |blocks[i]| && UserOf(blocks[i][p].key) == UserOf(target)
          && TagOf(e.key) <= TagOf(blocks[i][p].key)
    {
      var j, b := InSomeBlock(blocks, e);
      SeeksCover(blocks, index, target, i, p, j, b);
      BetweenVersions(target, blocks[i][p].key, e.key);
    }
    if i < |blocks| && p < |blocks[i]| && UserOf(blocks[i][p].key) == UserOf(target) {
      ConcatAt(blocks, i, p);
      NotNewer(target, blocks[i][p].key);
    }
  }

  lemma {:induction false} NotNewer(target: Bytes, k: Bytes)
    requires UserOf(k) == UserOf(target) && !KeyLess(k, target)
    ensures TagOf(k) <= TagOf(target)
  {
    hide UserOf, TagOf;
  }

  // ---------- The file ----------

  const FILTER_KEY: Bytes :=
    [102, 105, 108, 116, 101, 114, 46, 108, 101, 118, 101, 108, 100, 98, 46,
     66, 117, 105, 108, 116, 105, 110, 66, 108, 111, 111, 109, 70, 105, 108, 116, 101, 114, 50]

  /** Every data block is where its handle says. */
  ghost predicate Written(file: Bytes, blocks: seq<seq<KeyValue>>, handles: seq<BlockHandle>, interval: nat) {
    && |handles| == |blocks|
    && forall i | 0 <= i < |blocks| :: BlockAt(file, handles[i], EncodedBlock(blocks[i], interval))
  }

  /** The index entries made so far lead to their blocks. */
  ghost predicate LeadsTo(index: seq<KeyValue>, handles: seq<BlockHandle>) {
    && |index| <= |handles|
    && forall i | 0 <= i < |index| :: index[i].value == EncodedHandle(handles[i])
  }

  /** Each key of a block is in the group of keys that its place in the file falls into. */
  ghost predicate Covered(blocks: seq<seq<KeyValue>>, handles: seq<BlockHandle>, groups: seq<seq<Bytes>>) {
    && |handles| == |blocks|
    && forall i | 0 <= i < |blocks| ::
        handles[i].offset / BASE < |groups| && KeysIn(blocks[i], groups[handles[i].offset / BASE])
  }

  ghost predicate KeysIn(es: seq<KeyValue>, keys: seq<Bytes>) {
    forall b | 0 <= b < |es| :: es[b].key in keys
  }

  /** The filter block: the groups of keys, the offsets of their filters, the filters, and the bytes. */
  datatype FilterParts = FilterParts(groups: seq<seq<Bytes>>, offsets: seq<nat>, filters: Bytes, contents: Bytes)

  datatype Layout = Layout(
    interval: nat, policy: Option<FilterPolicy>, blocks: seq<seq<KeyValue>>, handles: seq<BlockHandle>,
        index: seq<KeyValue>,
    filter: FilterParts, filterHandle: BlockHandle, metaHandle: BlockHandle, indexHandle: BlockHandle)

  function MetaEntries(layout: Layout): seq<KeyValue> {
    if layout.policy.Some? then [KeyValue(FILTER_KEY, EncodedHandle(layout.filterHandle))] else []
  }

  ghost predicate HasFilter(file: Bytes, layout: Layout, policy: FilterPolicy) {
    var f := layout.filter;
    && policy.Valid() && IsFilterBlock(policy, f.groups, f.offsets, f.filters, f.contents)
    && BlockAt(file, layout.filterHandle, f.contents) && Covered(layout.blocks, layout.handles, f.groups)
  }

  ghost predicate IsTable(file: Bytes, layout: Layout) {
    && layout.interval >= 1 && NonEmpty(layout.blocks) && Ordered(Concat(layout.blocks))
    && Written(file, layout.blocks, layout.handles, layout.interval)
    && Separates(layout.blocks, layout.index) && LeadsTo(layout.index, layout.handles)
    && (layout.policy.Some? ==> HasFilter(file, layout, layout.policy.value))
    && BlockAt(file, layout.metaHandle, EncodedBlock(MetaEntries(layout), layout.interval))
    && BlockAt(file, layout.indexHandle, EncodedBlock(layout.index, 1))
    && |file| >= FOOTER_SIZE && file[|file| - FOOTER_SIZE..] == EncodedFooter(layout.metaHandle, layout.indexHandle)
  }

  /** Offsets within a block, and within the filter block, have 32 bits; those in the file, 64. */
  ghost predicate Fits(file: Bytes, layout: Layout) {
    && |file| < TWO_64
    && (forall i | 0 <= i < |layout.blocks| :: |EncodedBlock(layout.blocks[i], layout.interval)| < TWO_32)
    && |EncodedBlock(layout.index, 1)| < TWO_32 && |EncodedBlock(MetaEntries(layout), layout.interval)| < TWO_32
    && |layout.filter.contents| < TWO_32
  }
}
