/** Reading a table file: opening it, and looking a key up through the index and the filters. */
module Tables {
  import opened Format
  import opened Coding
  import opened Blocks
  import opened BlockIter
  import opened Bloom
  import opened Comparators
  import opened FilterBlocks
  import opened TableFormat
  import opened TableLayout

  // ---------- What the parts of a table are good for ----------

  lemma {:induction false} BlockIsSorted(layout: Layout, i: nat)
    requires NonEmpty(layout.blocks) && Ordered(Concat(layout.blocks)) && i < |layout.blocks|
    ensures Increasing(layout.blocks[i], KeyLess)
  {
    hide Concat, KeyLess;
    var es := layout.blocks[i];
    forall a, b | 0 <= a < b < |es| ensures KeyLess(es[a].key, es[b].key) {
      InOrder(layout.blocks, i, a, i, b);
    }
  }

  lemma {:induction false} IndexIsSorted(layout: Layout)
    requires NonEmpty(layout.blocks) && Ordered(Concat(layout.blocks)) && Separates(layout.blocks, layout.index)
    ensures Increasing(layout.index, KeyLess)
  {
    hide Concat, KeyLess, KeySeparator, KeySuccessor;
    var index, blocks := layout.index, layout.blocks;
    forall i, j | 0 <= i < j < |index| ensures KeyLess(index[i].key, index[j].key) {
      IndexKeyBounds(blocks, index, i, j, 0);
      IndexKeyBounds(blocks, index, j, j, 0);
      KeyLessSplits(index[i].key, index[j].key, blocks[j][0].key);
    }
  }

  /** The value of an index entry leads to its block. */
  lemma {:induction false} EntryLeads(file: Bytes, layout: Layout, i: nat)
    requires IsTable(file, layout) && Fits(file, layout) && i < |layout.index|
    ensures i < |layout.blocks| == |layout.handles|
        && DecodeHandle(layout.index[i].value) == Some((layout.handles[i], []))
    ensures BlockAt(file, layout.handles[i], EncodedBlock(layout.blocks[i], layout.interval))
    ensures WellBuilt(EncodedBlock(layout.blocks[i], layout.interval), layout.blocks[i], layout.interval)
  {
    hide Concat, EncodedBlock, EncodedHandle, DecodeHandle, HasFilter, MetaEntries, RawBlock, Ordered, EncodedFooter,
        KeySeparator, KeySuccessor;
    HandleRoundTrip(layout.handles[i], []);
    assert EncodedHandle(layout.handles[i]) + [] == EncodedHandle(layout.handles[i]);
  }

  /** The filter never hides a block that holds a version of the user key. */
  lemma {:induction false} FilterAdmits(file: Bytes, layout: Layout, policy: FilterPolicy, i: nat, b: nat, key: Bytes)
    requires HasFilter(file, layout, policy) && |layout.filter.contents| < TWO_32
    requires i < |layout.blocks| && b < |layout.blocks[i]| && UserOf(layout.blocks[i][b].key) == UserOf(key)
    ensures i < |layout.handles| && KeyMayMatch(policy, layout.filter.contents, layout.handles[i].offset, key)
  {
    hide IsFilterBlock, BlockAt, UserOf, FilterPolicy.Valid, FilterPolicy.MayMatch, FromLittleEndian, ShiftedRight;
    var f := layout.filter;
    BuiltFilterMatches(policy, f.groups, f.offsets, f.filters, f.contents, layout.handles[i].offset,
        layout.blocks[i][b].key);
  }

  /** Filters carry their number of probes: a reader with other parameters, but the same hash, can
      use them. */
  lemma {:induction false} OnlyHashMatters(a: FilterPolicy, b: FilterPolicy, contents: Bytes, blockOffset: nat,
      key: Bytes)
    requires a.hash == b.hash
    ensures KeyMayMatch(a, contents, blockOffset, key) <==> KeyMayMatch(b, contents, blockOffset, key)
  {
    hide FromLittleEndian, ShiftedRight, UserOf;
  }

  /** Whoever wrote the filters and whoever reads them use the same hash. */
  ghost predicate Agrees(policy: Option<FilterPolicy>, layout: Layout) {
    policy.Some? && layout.policy.Some? ==> policy.value.hash == layout.policy.value.hash
  }

  lemma {:induction false} BytesLessIsStrict()
    ensures StrictOrder(BytesLess)
  {
    hide BytesLess;
    forall a: Bytes, b: Bytes, c: Bytes | BytesLess(a, b) && BytesLess(b, c) ensures BytesLess(a, c) {
      BytesLessTransitive(a, b, c);
    }
    forall a: Bytes, b: Bytes | BytesLess(a, b) ensures !BytesLess(b, a) {
      BytesLessAsymmetric(a, b);
    }
  }

  /** The block of meta blocks, and the one it leads to. */
  lemma {:induction false} MetaParts(file: Bytes, layout: Layout)
    requires IsTable(file, layout) && Fits(file, layout)
    ensures var meta := EncodedBlock(MetaEntries(layout), layout.interval);
            BlockAt(file, layout.metaHandle, meta) && WellBuilt(meta, MetaEntries(layout), layout.interval)
    ensures layout.policy.Some? ==>
              BlockAt(file, layout.filterHandle, layout.filter.contents)
                  && DecodeHandle(EncodedHandle(layout.filterHandle)) == Some((layout.filterHandle, []))
  {
    hide Concat, EncodedBlock, EncodedHandle, DecodeHandle, IsFilterBlock, MetaEntries, RawBlock, Ordered,
        EncodedFooter, Separates, LeadsTo, Covered, Written;
    if layout.policy.Some? {
      HandleRoundTrip(layout.filterHandle, []);
      assert EncodedHandle(layout.filterHandle) + [] == EncodedHandle(layout.filterHandle);
    }
  }

  /** Seeking the name of the filters finds them, or nothing. */
  lemma {:induction false} MetaSought(layout: Layout)
    ensures Increasing(MetaEntries(layout), BytesLess)
    ensures |MetaEntries(layout)| == if layout.policy.Some? then 1 else 0
    ensures layout.policy.Some? ==>
        MetaEntries(layout)[0] == KeyValue(FILTER_KEY, EncodedHandle(layout.filterHandle))
        && !BytesLess(FILTER_KEY, FILTER_KEY)
  {
    hide BytesLess, EncodedHandle;
    if BytesLess(FILTER_KEY, FILTER_KEY) {
      BytesLessAsymmetric(FILTER_KEY, FILTER_KEY);
    }
  }

  lemma {:induction false} TableParts(file: Bytes, layout: Layout)
    requires IsTable(file, layout) && Fits(file, layout)
    ensures NonEmpty(layout.blocks) && Ordered(Concat(layout.blocks)) && Separates(layout.blocks, layout.index)
    ensures WellBuilt(EncodedBlock(layout.index, 1), layout.index, 1)
  {
    hide Concat, EncodedBlock, EncodedHandle, HasFilter, MetaEntries, RawBlock, EncodedFooter, KeyLess;
  }

  /** Where a seek has come to. */
  ghost function SeekResult(found: Option<nat>, es: seq<KeyValue>, target: Bytes): (i: nat)
    requires match found
             case Some(i) => i < |es| && !KeyLess(es[i].key, target)
                 && forall k | 0 <= k < i :: KeyLess(es[k].key, target)
             case None => forall k | 0 <= k < |es| :: KeyLess(es[k].key, target)
    ensures SeekPosition(es, target, i) && i == if found.Some? then found.value else |es|
  {
    if found.Some? then found.value else |es|
  }

  /** A filter that rejects a key rejects nothing that a lookup could find. */
  lemma {:induction false} NotInBlock(file: Bytes, layout: Layout, policy: FilterPolicy, key: Bytes, i: nat)
    requires IsTable(file, layout) && Fits(file, layout) && layout.policy.Some?
        && policy.hash == layout.policy.value.hash
    requires i < |layout.blocks| == |layout.handles| && SeekPosition(layout.index, key, i)
    requires !KeyMayMatch(policy, layout.filter.contents, layout.handles[i].offset, key)
    ensures !exists e :: e in Concat(layout.blocks) && Visible(e, UserOf(key), TagOf(key))
  {
    hide EncodedBlock, KeyLess, Concat, KeyMayMatch, UserOf, TagOf, SeekPosition, MetaEntries, RawBlock, EncodedFooter,
        Written, LeadsTo, BlockAt;
    TableParts(file, layout);
    OnlyHashMatters(policy, layout.policy.value, layout.filter.contents, layout.handles[i].offset, key);
    var p := SomeSeek(layout.blocks[i], key);
    if exists e :: e in Concat(layout.blocks) && Visible(e, UserOf(key), TagOf(key)) {
      SeeksFindNewest(layout.blocks, layout.index, key, i, p);
      FilterAdmits(file, layout, layout.policy.value, i, p, key);
      assert false;
    }
  }

  lemma {:induction false} SomeSeek(es: seq<KeyValue>, target: Bytes) returns (p: nat)
    ensures SeekPosition(es, target, p)
  {
    hide KeyLess;
    p := 0;
    while p < |es| && KeyLess(es[p].key, target)
      invariant p <= |es| && forall k | 0 <= k < p :: KeyLess(es[k].key, target)
    {
      p := p + 1;
    }
  }

  class TableReader {
    const file: Bytes
    const policy: Option<FilterPolicy>
    const indexBlock: Bytes
    var filter: Option<Bytes>
    ghost const layout: Layout

    ghost predicate Valid()
      reads this
    {
      && IsTable(file, layout) && Fits(file, layout) && Agrees(policy, layout)
          && indexBlock == EncodedBlock(layout.index, 1)
      && filter == if policy.Some? && layout.policy.Some? then Some(layout.filter.contents) else None
    }

    ghost function Entries(): seq<KeyValue> {
      Concat(layout.blocks)
    }

    constructor (file: Bytes, policy: Option<FilterPolicy>, indexBlock: Bytes, ghost layout: Layout)
      ensures this.file == file && this.policy == policy && this.indexBlock == indexBlock && filter == None
          && this.layout == layout
    {
      this.file, this.policy, this.indexBlock, this.layout := file, policy, indexBlock, layout;
      filter := None;
    }

    static method Open(file: Bytes, policy: Option<FilterPolicy>, paranoidChecks: bool, ghost layout: Layout)
        returns (table: TableReader)
      requires IsTable(file, layout) && Fits(file, layout) && Agrees(policy, layout)
      ensures fresh(table) && table.Valid() && table.layout == layout && table.file == file && table.policy == policy
    {
      hide Separates, Ordered, Concat, Written, LeadsTo, HasFilter, EncodedBlock, RawBlock, EncodedFooter,
          DecodeFooter, ReadBlock;
      if |file| < FOOTER_SIZE {
        // Too short for a footer: no table that was finished is.
        assert false;
      }
      FooterRoundTrip(layout.metaHandle, layout.indexHandle);
      var footer := DecodeFooter(file[|file| - FOOTER_SIZE..]);
      BlockReads(file, layout.indexHandle, EncodedBlock(layout.index, 1), paranoidChecks);
      var contents := ReadBlock(file, footer.value.1, paranoidChecks);
      table := new TableReader(file, policy, contents.value, layout);
      table.ReadMeta(footer.value.0, paranoidChecks);
    }

    /** Find the filters, if there is a use for them. */
    method ReadMeta(metaindex: BlockHandle, paranoidChecks: bool)
      requires IsTable(file, layout) && Fits(file, layout) && Agrees(policy, layout)
          && indexBlock == EncodedBlock(layout.index, 1)
      requires filter == None && metaindex == layout.metaHandle
      modifies this
      ensures Valid()
    {
      hide IsTable, Fits, EncodedBlock, ReadBlock, EncodedHandle, BytesLess, BlockAt, WellBuilt, MetaEntries;
      if policy.None? {
        return;
      }
      MetaParts(file, layout);
      BlockReads(file, layout.metaHandle, EncodedBlock(MetaEntries(layout), layout.interval), paranoidChecks);
      var meta := ReadBlock(file, metaindex, paranoidChecks);
      BytesLessIsStrict();
      MetaSought(layout);
      var iter := new Iter(meta.value, MetaEntries(layout), layout.interval);
      iter.Seek(FILTER_KEY, BytesLess);
      if iter.IsValid() && iter.key == FILTER_KEY {
        ReadFilter(iter.Value(), paranoidChecks);
      }
    }

    method ReadFilter(handleValue: Bytes, paranoidChecks: bool)
      requires IsTable(file, layout) && Fits(file, layout) && layout.policy.Some?
          && handleValue == EncodedHandle(layout.filterHandle)
      modifies this
      ensures filter == Some(layout.filter.contents)
    {
      hide IsTable, Fits, EncodedBlock, ReadBlock, EncodedHandle, DecodeHandle;
      MetaParts(file, layout);
      var handle := DecodeHandle(handleValue);
      BlockReads(file, layout.filterHandle, layout.filter.contents, paranoidChecks);
      filter := ReadBlock(file, handle.value.0, paranoidChecks);
    }

    /** The block that an index value leads to. */
    method BlockReader(handleValue: Bytes, verifyChecksums: bool, ghost i: nat) returns (iter: Iter)
      requires Valid() && i < |layout.index| && handleValue == layout.index[i].value
      ensures fresh(iter) && iter.Valid() && iter.At() == None && i < |layout.blocks| && iter.es == layout.blocks[i]
          && iter.interval == layout.interval
    {
      hide IsTable, Fits, EncodedBlock, ReadBlock, EncodedHandle, DecodeHandle, WellBuilt, BlockAt;
      EntryLeads(file, layout, i);
      var handle := DecodeHandle(handleValue);
      BlockReads(file, layout.handles[i], EncodedBlock(layout.blocks[i], layout.interval), verifyChecksums);
      var contents := ReadBlock(file, handle.value.0, verifyChecksums);
      iter := new Iter(contents.value, layout.blocks[i], layout.interval);
    }

    /** Does the filter say that the block has no version of this user key? */
    ghost predicate Rejects(i: nat, key: Bytes)
      requires i < |layout.handles|
      reads this
    {
      policy.Some? && filter.Some? && !KeyMayMatch(policy.value, filter.value, layout.handles[i].offset, key)
    }

    /** What a lookup comes to: one seek in the index, and one in the block it leads to, unless the
        filter rejects it. */
    ghost predicate Comes(key: Bytes, r: Option<KeyValue>)
      requires |layout.index| == |layout.blocks| == |layout.handles|
      reads this
    {
      exists i: nat :: i <= |layout.index| && SeekPosition(layout.index, key, i) && ComesFrom(i, key, r)
    }

    ghost predicate ComesFrom(i: nat, key: Bytes, r: Option<KeyValue>)
      requires i <= |layout.index| == |layout.blocks| == |layout.handles|
      reads this
    {
      if i == |layout.index| || Rejects(i, key) then r == None
      else exists p: nat :: SeekPosition(layout.blocks[i], key, p)
                            && r == if p < |layout.blocks[i]| then Some(layout.blocks[i][p]) else None
    }

    lemma {:induction false} Found(i: nat, p: nat, key: Bytes)
      requires i < |layout.index| == |layout.blocks| == |layout.handles| && !Rejects(i, key)
      requires SeekPosition(layout.index, key, i) && SeekPosition(layout.blocks[i], key, p)
      ensures Comes(key, if p < |layout.blocks[i]| then Some(layout.blocks[i][p]) else None)
    {
      hide SeekPosition, Rejects;
      assert ComesFrom(i, key, if p < |layout.blocks[i]| then Some(layout.blocks[i][p]) else None);
    }

    lemma {:induction false} NothingFound(i: nat, key: Bytes)
      requires i <= |layout.index| == |layout.blocks| == |layout.handles| && SeekPosition(layout.index, key, i)
      requires i < |layout.index| ==> Rejects(i, key)
      ensures Comes(key, None)
    {
      hide SeekPosition, Rejects;
      assert ComesFrom(i, key, None);
    }

    lemma {:induction false} SameCount()
      requires Valid()
      ensures |layout.index| == |layout.blocks| == |layout.handles|
    {
      hide EncodedBlock, HasFilter, BlockAt, Concat;
    }

    /** The newest version of a user key that is not newer than the key sought is found, if the
        table has one; what is found otherwise is of another user key. */
    method InternalGet(key: Bytes, verifyChecksums: bool) returns (r: Option<KeyValue>)
      requires Valid()
      ensures r.Some? && UserOf(r.value.key) == UserOf(key) ==>
          NewestVisible(Entries(), UserOf(key), TagOf(key), r.value)
      ensures (exists e :: e in Entries() && Visible(e, UserOf(key), TagOf(key))) ==>
          r.Some? && UserOf(r.value.key) == UserOf(key)
      ensures |layout.index| == |layout.blocks| == |layout.handles| && Comes(key, r)
    {
      hide TableReader.Comes, IsTable, Fits, EncodedBlock, KeyLess, Concat, NewestVisible, Visible, KeyMayMatch,
          UserOf, TagOf, DecodeHandle, SeekPosition;
      SameCount();
      IndexReads();
      KeyLessIsStrict();
      var indexIter := new Iter(indexBlock, layout.index, 1);
      indexIter.Seek(key, KeyLess);
      ghost var i := SeekResult(indexIter.At(), layout.index, key);
      if indexIter.IsValid() {
        EntryLeads(file, layout, i);
        var handle := DecodeHandle(indexIter.Value());
        if filter.Some? && handle.Some? && !KeyMayMatch(policy.value, filter.value, handle.value.0.offset, key) {
          NothingFound(i, key);
          r := None;
        } else {
          r := GetFromBlock(indexIter.Value(), key, verifyChecksums, i);
        }
      } else {
        NothingFound(i, key);
        r := None;
      }
      ComesIsNewest(key, r);
    }

    method GetFromBlock(handleValue: Bytes, key: Bytes, verifyChecksums: bool, ghost i: nat)
        returns (r: Option<KeyValue>)
      requires Valid() && i < |layout.index| == |layout.blocks| == |layout.handles|
      requires handleValue == layout.index[i].value && SeekPosition(layout.index, key, i) && !Rejects(i, key)
      ensures Comes(key, r)
    {
      hide TableReader.Comes, TableReader.Rejects, IsTable, Fits, KeyLess, SeekPosition;
      IndexReads();
      KeyLessIsStrict();
      BlockIsSorted(layout, i);
      var blockIter := BlockReader(handleValue, verifyChecksums, i);
      blockIter.Seek(key, KeyLess);
      ghost var p := SeekResult(blockIter.At(), layout.blocks[i], key);
      Found(i, p, key);
      r := if blockIter.IsValid() then Some(KeyValue(blockIter.key, blockIter.Value())) else None;
    }

    lemma {:induction false} IndexReads()
      requires Valid()
      ensures NonEmpty(layout.blocks) && Ordered(Concat(layout.blocks)) && Separates(layout.blocks, layout.index)
      ensures WellBuilt(indexBlock, layout.index, 1) && Increasing(layout.index, KeyLess)
    {
      hide IsTable, Fits, EncodedBlock, KeyLess, Concat;
      TableParts(file, layout);
      IndexIsSorted(layout);
    }

    /** So the newest version of the user key is found, if the table has one. */
    lemma {:induction false} ComesIsNewest(key: Bytes, r: Option<KeyValue>)
      requires Valid() && |layout.index| == |layout.blocks| == |layout.handles| && Comes(key, r)
      ensures r.Some? && UserOf(r.value.key) == UserOf(key) ==>
          NewestVisible(Entries(), UserOf(key), TagOf(key), r.value)
      ensures (exists e :: e in Entries() && Visible(e, UserOf(key), TagOf(key))) ==>
          r.Some? && UserOf(r.value.key) == UserOf(key)
    {
      hide IsTable, Fits, EncodedBlock, KeyLess, Concat, NewestVisible, Visible, KeyMayMatch, UserOf, TagOf,
          SeekPosition;
      IndexReads();
      var i: nat :| i <= |layout.index| && SeekPosition(layout.index, key, i) && ComesFrom(i, key, r);
      if i == |layout.index| {
        SeeksFindNewest(layout.blocks, layout.index, key, i, 0);
      } else if Rejects(i, key) {
        NotInBlock(file, layout, policy.value, key, i);
      } else {
        var p: nat :| SeekPosition(layout.blocks[i], key, p)
          && r == if p < |layout.blocks[i]| then Some(layout.blocks[i][p]) else None;
        SeeksFindNewest(layout.blocks, layout.index, key, i, p);
      }
    }
  }
}
