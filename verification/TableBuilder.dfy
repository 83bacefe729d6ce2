/** Building a table file from entries in increasing order. */
module TableBuilders {
  import opened Format
  import opened Blocks
  import opened Bloom
  import opened Comparators
  import opened FilterBlocks
  import opened TableFormat
  import opened TableLayout

  /** The blocks written, and the one being filled. */
  function All(blocks: seq<seq<KeyValue>>, data: seq<KeyValue>): seq<seq<KeyValue>> {
    if data == [] then blocks else blocks + [data]
  }

  lemma {:induction false} ConcatAll(blocks: seq<seq<KeyValue>>, data: seq<KeyValue>)
    ensures Concat(All(blocks, data)) == Concat(blocks) + data
  {
    if data != [] {
      assert All(blocks, data)[..|blocks|] == blocks;
    }
  }

  lemma {:induction false} AllParts(blocks: seq<seq<KeyValue>>, data: seq<KeyValue>)
    ensures forall i | 0 <= i < |blocks| :: All(blocks, data)[i] == blocks[i]
    ensures NonEmpty(All(blocks, data)) <==> NonEmpty(blocks)
    ensures |All(blocks, data)| == if data == [] then |blocks| else |blocks| + 1
  {
  }

  /** The keys of the index entries made so far. */
  ghost predicate SeparatesFirst(all: seq<seq<KeyValue>>, index: seq<KeyValue>)
    requires NonEmpty(all)
  {
    && (index == [] || |index| < |all|)
    && forall i | 0 <= i < |index| :: index[i].key == KeySeparator(LastOf(all[i]), all[i + 1][0].key)
  }

  /** Blocks, handles and index between two calls. An index entry is made when the first key of
      the next block is known. */
  ghost predicate Consistent(file: Bytes, interval: nat, blocks: seq<seq<KeyValue>>, handles: seq<BlockHandle>,
      data: seq<KeyValue>, index: seq<KeyValue>, pending: bool)
  {
    && NonEmpty(All(blocks, data)) && Ordered(Concat(All(blocks, data))) && Written(file, blocks, handles, interval)
    && SeparatesFirst(All(blocks, data), index) && LeadsTo(index, handles)
    && (if pending then data == [] && |index| + 1 == |blocks| else |index| == |blocks| && (data == [] ==> blocks == []))
  }

  lemma {:induction false} OrderedMore(es: seq<KeyValue>, e: KeyValue)
    requires Ordered(es) && (es == [] || KeyLess(LastOf(es), e.key))
    ensures Ordered(es + [e])
  {
    hide KeyLess;
    var more := es + [e];
    forall i, j | 0 <= i < j < |more| ensures KeyLess(more[i].key, more[j].key) {
      if j == |es| && i < |es| - 1 {
        KeyLessTransitive(es[i].key, LastOf(es), e.key);
      }
    }
  }

  /** One more entry in the block, when no index entry is pending, or has just been made. */
  lemma {:induction false} EntryKeeps(file: Bytes, interval: nat, blocks: seq<seq<KeyValue>>,
      handles: seq<BlockHandle>, data: seq<KeyValue>, index: seq<KeyValue>, e: KeyValue)
    requires Consistent(file, interval, blocks, handles, data, index, false)
    requires Concat(All(blocks, data)) == [] || KeyLess(LastOf(Concat(All(blocks, data))), e.key)
    ensures Consistent(file, interval, blocks, handles, data + [e], index, false)
    ensures Concat(All(blocks, data + [e])) == Concat(All(blocks, data)) + [e]
  {
    hide Concat, KeyLess, KeySeparator, Written, LeadsTo, Ordered;
    ConcatAll(blocks, data);
    ConcatAll(blocks, data + [e]);
    AllParts(blocks, data);
    AllParts(blocks, data + [e]);
    OrderedMore(Concat(All(blocks, data)), e);
    assert Concat(blocks) + data + [e] == Concat(blocks) + (data + [e]);
    var all, more := All(blocks, data), All(blocks, data + [e]);
    assert NonEmpty(more);
    assert forall i | 0 <= i < |all| :: more[i][0] == all[i][0] && (i < |blocks| ==> more[i] == all[i]);
  }

  /** The pending index entry, and the first entry of the next block. */
  lemma {:induction false} FirstEntryKeeps(file: Bytes, interval: nat, blocks: seq<seq<KeyValue>>,
      handles: seq<BlockHandle>, index: seq<KeyValue>, e: KeyValue, entry: KeyValue)
    requires Consistent(file, interval, blocks, handles, [], index, true) && blocks != []
    requires KeyLess(LastOf(blocks[|blocks| - 1]), e.key) && LastOf(Concat(blocks)) == LastOf(blocks[|blocks| - 1])
    requires entry == KeyValue(KeySeparator(LastOf(blocks[|blocks| - 1]), e.key), EncodedHandle(handles[|blocks| - 1]))
    ensures Consistent(file, interval, blocks, handles, [e], index + [entry], false)
    ensures Concat(All(blocks, [e])) == Concat(blocks) + [e]
  {
    hide Concat, KeyLess, KeySeparator, BlockAt, EncodedBlock, EncodedHandle, Ordered;
    ConcatAll(blocks, []);
    ConcatAll(blocks, [e]);
    AllParts(blocks, []);
    AllParts(blocks, [e]);
    OrderedMore(Concat(blocks), e);
    assert NonEmpty(All(blocks, [e]));
    assert SeparatesFirst(All(blocks, [e]), index + [entry]);
    assert Ordered(Concat(All(blocks, [e])));
    assert LeadsTo(index + [entry], handles);
  }

  /** The block being filled is written. */
  lemma {:induction false} FlushKeeps(file: Bytes, interval: nat, blocks: seq<seq<KeyValue>>,
      handles: seq<BlockHandle>, data: seq<KeyValue>, index: seq<KeyValue>)
    requires Consistent(file, interval, blocks, handles, data, index, false) && data != []
    ensures var contents := EncodedBlock(data, interval);
            var handle := BlockHandle(|file|, |contents|);
            Consistent(file + RawBlock(contents), interval, blocks + [data], handles + [handle], [], index, true)
    ensures All(blocks + [data], []) == All(blocks, data)
  {
    hide Concat, KeyLess, KeySeparator, BlockAt, EncodedBlock, RawBlock, EncodedHandle, Ordered;
    var contents := EncodedBlock(data, interval);
    var handle := BlockHandle(|file|, |contents|);
    WrittenStays(file, RawBlock(contents), blocks, handles, interval);
    BlockWritten(file, contents);
    AllParts(blocks, data);
    assert All(blocks + [data], []) == All(blocks, data);
  }

  lemma {:induction false} WrittenStays(file: Bytes, more: Bytes, blocks: seq<seq<KeyValue>>,
      handles: seq<BlockHandle>, interval: nat)
    requires Written(file, blocks, handles, interval)
    ensures Written(file + more, blocks, handles, interval)
  {
    hide BlockAt, EncodedBlock;
    forall i | 0 <= i < |blocks| ensures BlockAt(file + more, handles[i], EncodedBlock(blocks[i], interval)) {
      BlockStays(file, more, handles[i], EncodedBlock(blocks[i], interval));
    }
  }

  // ---------- The keys for the filters ----------

  /** Keys of written blocks are in their groups, and those of the block being filled are in the
      group of keys still to come. */
  ghost predicate Filtered(blocks: seq<seq<KeyValue>>, handles: seq<BlockHandle>, data: seq<KeyValue>, offset: nat,
      groups: seq<seq<Bytes>>, pending: seq<Bytes>)
  {
    |groups| == offset / BASE && Covered(blocks, handles, groups + [pending]) && KeysIn(data, pending)
  }

  lemma {:induction false} KeysInMore(es: seq<KeyValue>, keys: seq<Bytes>, key: Bytes)
    requires KeysIn(es, keys)
    ensures KeysIn(es, keys + [key])
  {
  }

  lemma {:induction false} KeyAddedKeeps(blocks: seq<seq<KeyValue>>, handles: seq<BlockHandle>, data: seq<KeyValue>,
      offset: nat, groups: seq<seq<Bytes>>, pending: seq<Bytes>, e: KeyValue)
    requires Filtered(blocks, handles, data, offset, groups, pending)
    ensures Filtered(blocks, handles, data + [e], offset, groups, pending + [e.key])
  {
    hide KeysIn;
    var now, later := groups + [pending], groups + [pending + [e.key]];
    forall i | 0 <= i < |blocks|
        ensures handles[i].offset / BASE < |later| && KeysIn(blocks[i], later[handles[i].offset / BASE]) {
      var g := handles[i].offset / BASE;
      assert later[g] == if g < |groups| then now[g] else pending + [e.key];
      if g == |groups| {
        KeysInMore(blocks[i], pending, e.key);
      }
    }
    KeysInMore(data, pending, e.key);
    KeysInWith(data, pending + [e.key], e);
  }

  lemma {:induction false} KeysInWith(es: seq<KeyValue>, keys: seq<Bytes>, e: KeyValue)
    requires KeysIn(es, keys) && e.key in keys
    ensures KeysIn(es + [e], keys)
  {
  }

  /** A block is written at the offset that its keys were collected for, and the next one begins. */
  lemma {:induction false} BlockStartedKeeps(
      blocks: seq<seq<KeyValue>>, handles: seq<BlockHandle>, data: seq<KeyValue>, handle: BlockHandle, next: nat,
      groups: seq<seq<Bytes>>, pending: seq<Bytes>, groups': seq<seq<Bytes>>, pending': seq<Bytes>)
    requires Filtered(blocks, handles, data, handle.offset, groups, pending)
    requires |groups'| == next / BASE && groups + [pending] <= groups' + [pending']
    ensures Filtered(blocks + [data], handles + [handle], [], next, groups', pending')
  {
    hide KeysIn;
    var now, later := groups + [pending], groups' + [pending'];
    assert forall g | 0 <= g < |now| :: later[g] == now[g];
    assert now[|groups|] == pending;
    NoKeysIn(pending');
  }

  lemma {:induction false} NoKeysIn(keys: seq<Bytes>)
    ensures KeysIn([], keys)
  {
  }

  ghost predicate FilterIsMade(policy: FilterPolicy, blocks: seq<seq<KeyValue>>, handles: seq<BlockHandle>,
      f: FilterParts)
  {
    policy.Valid() && IsFilterBlock(policy, f.groups, f.offsets, f.filters, f.contents)
        && Covered(blocks, handles, f.groups)
  }

  // ---------- The builder ----------

  class TableBuilder {
    const blockSize: nat
    const policy: Option<FilterPolicy>
    var file: Bytes
    var offset: nat
    const dataBlock: BlockBuilder
    const indexBlock: BlockBuilder
    const filterBlock: FilterBlockBuilder?
    var lastKey: Bytes
    var numEntries: nat
    var closed: bool
    var pendingIndexEntry: bool
    var pendingHandle: BlockHandle
    ghost var blocks: seq<seq<KeyValue>>
    ghost var handles: seq<BlockHandle>
    ghost var early: set<int>     // the blocks that were flushed before they were big enough

    /** The objects that only this builder knows. */
    ghost predicate Separate()
      reads this
    {
      dataBlock != indexBlock && (policy.Some? <==> filterBlock != null)
    }

    ghost predicate BlocksValid()
      reads this, dataBlock, indexBlock
    {
      && dataBlock.Valid() && indexBlock.Valid() && indexBlock.interval == 1 && offset == |file|
      && Consistent(file, dataBlock.interval, blocks, handles, dataBlock.entries, indexBlock.entries, pendingIndexEntry)
      && (pendingIndexEntry ==> pendingHandle == handles[|blocks| - 1])
      && numEntries == |Entries()| && (Entries() != [] ==> lastKey == LastOf(Entries()))
    }

    ghost predicate FiltersValid()
      reads this, dataBlock, filterBlock
    {
      filterBlock != null ==>
        && filterBlock.Valid() && policy == Some(filterBlock.policy)
        && Filtered(blocks, handles, dataBlock.entries, offset, filterBlock.groups, filterBlock.pending)
    }

    /** No block could have ended earlier, and no block is too small, but for those flushed early. */
    ghost predicate SizesValid()
      reads this, dataBlock
    {
      && Filled(blocks, dataBlock.interval, blockSize, early)
      && (dataBlock.entries == [] || NoneEarlier(dataBlock.entries, Full(dataBlock.interval, blockSize)))
    }

    ghost predicate Built()
      reads this, dataBlock, indexBlock, filterBlock
    {
      Separate() && BlocksValid() && FiltersValid() && SizesValid()
    }

    /** The block being filled has at least one entry less than it may have. */
    ghost predicate Small()
      reads this, dataBlock
    {
      dataBlock.entries == [] || |EncodedBlock(dataBlock.entries, dataBlock.interval)| < blockSize
    }

    ghost predicate Valid()
      reads this, dataBlock, indexBlock, filterBlock
    {
      Built() && Small()
    }

    /** All entries added. */
    ghost function Entries(): seq<KeyValue>
      reads this, dataBlock
    {
      Concat(All(blocks, dataBlock.entries))
    }

    constructor (blockSize: nat, interval: nat, policy: Option<FilterPolicy>)
      requires interval >= 1 && (policy.Some? ==> policy.value.Valid())
      ensures Valid() && Entries() == [] && !closed && this.policy == policy && dataBlock.interval == interval
      ensures this.blockSize == blockSize && early == {} && blocks == []
      ensures fresh(dataBlock) && fresh(indexBlock) && (filterBlock != null ==> fresh(filterBlock))
    {
      this.blockSize, this.policy := blockSize, policy;
      file, offset, lastKey, numEntries, closed := [], 0, [], 0, false;
      pendingIndexEntry, pendingHandle := false, BlockHandle(0, 0);
      blocks, handles, early := [], [], {};
      dataBlock := new BlockBuilder(interval);
      indexBlock := new BlockBuilder(1);
      var filters: FilterBlockBuilder? := null;
      if policy.Some? {
        filters := new FilterBlockBuilder(policy.value);
        filters.StartBlock(0);
      }
      filterBlock := filters;
    }

    method Add(key: Bytes, value: Bytes)
      requires Valid() && !closed
      requires Entries() == [] || KeyLess(LastOf(Entries()), key)
      modifies this, dataBlock, indexBlock, filterBlock
      ensures Valid() && !closed && Entries() == old(Entries()) + [KeyValue(key, value)] && early == old(early)
    {
      hide *;
      AddEntry(key, value);
      EstimateDefined();
      var estimate := dataBlock.CurrentSizeEstimate();
      if estimate >= blockSize {
        Flush();
      } else {
        NotFull();
      }
    }

    lemma {:induction false} EstimateDefined()
      requires Built()
      ensures dataBlock.Valid()
    {
    }

    lemma {:induction false} NotFull()
      requires Built() && |EncodedBlock(dataBlock.entries, dataBlock.interval)| < blockSize
      ensures Valid()
    {
    }

    method AddEntry(key: Bytes, value: Bytes)
      requires Valid() && !closed
      requires Entries() == [] || KeyLess(LastOf(Entries()), key)
      modifies this, dataBlock, indexBlock, filterBlock
      ensures Built() && !closed && Entries() == old(Entries()) + [KeyValue(key, value)] && early == old(early)
      ensures dataBlock.entries != []
    {
      hide Concat, All, Consistent, Filtered, KeyLess, KeySeparator, EncodedHandle, BlockBuilder.Valid,
          FilterBlockBuilder.Valid, Filled, NoneEarlier, EncodedBlock;
      ghost var data, index, interval, e :=
          dataBlock.entries, indexBlock.entries, dataBlock.interval, KeyValue(key, value);
      ghost var all := Entries();
      OneMoreFits(data, e, interval, blockSize);
      if pendingIndexEntry {
        PendingParts(file, interval, blocks, handles, data, index);
        lastKey := FindShortestKeySeparator(lastKey, key);
        FirstEntryKeeps(file, interval, blocks, handles, index, e, KeyValue(lastKey, EncodedHandle(pendingHandle)));
        indexBlock.Add(lastKey, EncodedHandle(pendingHandle));
        pendingIndexEntry := false;
        assert data + [e] == [e];
      } else {
        EntryKeeps(file, interval, blocks, handles, data, index, e);
      }
      if filterBlock != null {
        KeyAddedKeeps(blocks, handles, data, offset, filterBlock.groups, filterBlock.pending, e);
        filterBlock.AddKey(key);
      }
      lastKey := key;
      numEntries := numEntries + 1;
      dataBlock.Add(key, value);
      assert Entries() == all + [e];
      assert BlocksValid();
      assert FiltersValid();
    }

    /** Write the block being filled, if there is anything in it. */
    method Flush()
      requires Built() && !closed
      modifies this, dataBlock, indexBlock, filterBlock
      ensures Valid() && !closed && Entries() == old(Entries()) && dataBlock.entries == []
      ensures blocks == old(All(blocks, dataBlock.entries))
      ensures if old(dataBlock.entries) != [] && |EncodedBlock(old(dataBlock.entries), dataBlock.interval)| < blockSize
              then early == old(early) + {|old(blocks)|} else early == old(early)
    {
      hide Concat, All, Consistent, Filtered, EncodedBlock, RawBlock, BlockBuilder.Valid, FilterBlockBuilder.Valid,
          Filled, NoneEarlier, Full;
      AllWith(blocks, dataBlock.entries);
      if dataBlock.Empty() {
        return;
      }
      ghost var small := Small();
      FilledMore(blocks, dataBlock.entries, dataBlock.interval, blockSize, early, small);
      ghost var data, index, interval := dataBlock.entries, indexBlock.entries, dataBlock.interval;
      NotPending(file, interval, blocks, handles, data, index, pendingIndexEntry);
      FlushKeeps(file, interval, blocks, handles, data, index);
      pendingHandle := WriteBlock(dataBlock);
      pendingIndexEntry := true;
      if filterBlock != null {
        ghost var groups, pending := filterBlock.groups, filterBlock.pending;
        OffsetGrows(blocks, handles, data, pendingHandle.offset, offset, groups, pending);
        filterBlock.StartBlock(offset);
        BlockStartedKeeps(blocks, handles, data, pendingHandle, offset, groups, pending, filterBlock.groups,
            filterBlock.pending);
      }
      if small {
        early := early + {|blocks|};
      }
      blocks, handles := blocks + [data], handles + [pendingHandle];
    }

    /** The rest of the file: the filters, the block that says where they are, the index, and the footer. */
    method Finish() returns (ghost layout: Layout)
      requires Valid() && !closed
      modifies this, dataBlock, indexBlock, filterBlock
      ensures IsTable(file, layout) && Concat(layout.blocks) == old(Entries())
      ensures layout.policy == policy && layout.interval == dataBlock.interval && closed && offset == |file|
      ensures Filled(layout.blocks, layout.interval, blockSize, early) && early <= old(early) + {|layout.blocks| - 1}
      ensures old(early) == {} ==> FilledInOrder(layout.blocks, layout.interval, blockSize)
    {
      hide Concat, Consistent, Filtered, EncodedBlock, RawBlock, EncodedHandle, EncodedFooter, IsFilterBlock,
          FilterPolicy.Valid, Covered, IsTable, KeySuccessor, FilterBlockBuilder.Valid, BlockBuilder.Valid,
          FilterIsMade, Filled, FilledInOrder, NoneEarlier, Full, KeyLess, Separates, LeadsTo, Written;
      AllWith(blocks, dataBlock.entries);
      Flush();
      closed := true;
      ghost var flushed, interval := file, dataBlock.interval;
      LastKeyIs(flushed, interval, blocks, handles, indexBlock.entries, pendingIndexEntry);
      IntervalIsPositive();
      var filterHandle, filter := FinishFilter();
      ghost var filtered := file;
      var metaHandle, metaEntries := WriteMeta(filterHandle);
      var indexHandle, index := FinishIndex(flushed);
      ghost var written := file;
      file := file + EncodedFooter(metaHandle, indexHandle);
      offset := offset + FOOTER_SIZE;
      layout := Layout(interval, policy, blocks, handles, index, filter, filterHandle, metaHandle, indexHandle);
      TableFinished(flushed, filtered, written, file, layout);
      if early <= {|blocks| - 1} {
        FewerEarly(blocks, interval, blockSize, early);
      }
    }

    method FinishFilter() returns (handle: BlockHandle, ghost filter: FilterParts)
      requires Valid() && dataBlock.entries == [] && NonEmpty(blocks)
      modifies this`file, this`offset, filterBlock
      ensures offset == |file|
      ensures policy.None? ==> file == old(file)
      ensures policy.Some? ==>
        && FilterIsMade(policy.value, blocks, handles, filter)
        && file == old(file) + RawBlock(filter.contents) && handle == BlockHandle(|old(file)|, |filter.contents|)
    {
      hide Concat, Consistent, Filtered, RawBlock, IsFilterBlock, Covered, FilterPolicy.Valid,
          FilterBlockBuilder.Valid, BlockBuilder.Valid;
      handle, filter := BlockHandle(0, 0), FilterParts([], [], [], []);
      if filterBlock != null {
        PolicyIsValid();
        LastGroup(blocks, handles, offset, filterBlock.groups, filterBlock.pending);
        var contents := filterBlock.Finish();
        ghost var offsets, filters :| IsFilterBlock(filterBlock.policy, filterBlock.groups, offsets, filters, contents);
        filter := FilterParts(filterBlock.groups, offsets, filters, contents);
        handle := WriteRawBlock(contents);
      }
    }

    /** The block of meta blocks: at most one, for the filters. */
    method WriteMeta(filterHandle: BlockHandle) returns (handle: BlockHandle, ghost entries: seq<KeyValue>)
      requires Separate() && dataBlock.interval >= 1 && offset == |file|
      modifies this`file, this`offset
      ensures entries == if policy.Some? then [KeyValue(FILTER_KEY, EncodedHandle(filterHandle))] else []
      ensures var contents := EncodedBlock(entries, dataBlock.interval);
              file == old(file) + RawBlock(contents) && offset == |file|
                  && handle == BlockHandle(|old(file)|, |contents|)
    {
      hide EncodedBlock, RawBlock, EncodedHandle, BlockBuilder.Valid;
      var meta := new BlockBuilder(dataBlock.interval);
      if filterBlock != null {
        meta.Add(FILTER_KEY, EncodedHandle(filterHandle));
      }
      entries := meta.entries;
      handle := WriteBlock(meta);
    }

    /** The index, with an entry for the last block. */
    method FinishIndex(ghost flushed: Bytes) returns (handle: BlockHandle, ghost index: seq<KeyValue>)
      requires dataBlock != indexBlock && indexBlock.Valid() && indexBlock.interval == 1 && offset == |file|
      requires Consistent(flushed, dataBlock.interval, blocks, handles, [], indexBlock.entries, pendingIndexEntry)
          && NonEmpty(blocks)
      requires pendingIndexEntry ==>
          |handles| == |blocks| && blocks != [] && pendingHandle == handles[|blocks| - 1]
          && lastKey == LastOf(blocks[|blocks| - 1])
      modifies this`file, this`offset, this`lastKey, this`pendingIndexEntry, indexBlock
      ensures Separates(blocks, index) && LeadsTo(index, handles)
      ensures var contents := EncodedBlock(index, 1);
              file == old(file) + RawBlock(contents) && offset == |file|
                  && handle == BlockHandle(|old(file)|, |contents|)
    {
      hide Consistent, EncodedBlock, RawBlock, EncodedHandle, BlockBuilder.Valid, KeySuccessor, Separates, LeadsTo;
      ghost var early, pending := indexBlock.entries, pendingIndexEntry;
      if pendingIndexEntry {
        lastKey := FindShortKeySuccessor(lastKey);
        indexBlock.Add(lastKey, EncodedHandle(pendingHandle));
        pendingIndexEntry := false;
      }
      index := indexBlock.entries;
      LastIndexEntry(flushed, dataBlock.interval, blocks, handles, early, index, pending);
      handle := WriteBlock(indexBlock);
    }

    lemma {:induction false} IntervalIsPositive()
      requires Valid()
      ensures dataBlock.interval >= 1
    {
    }

    lemma {:induction false} PolicyIsValid()
      requires Valid() && filterBlock != null
      ensures filterBlock.Valid() && filterBlock.policy.Valid()
    {
    }

    method WriteBlock(block: BlockBuilder) returns (handle: BlockHandle)
      requires block.Valid() && offset == |file|
      modifies this`file, this`offset, block
      ensures block.Valid() && block.entries == []
      ensures var contents := EncodedBlock(old(block.entries), block.interval);
              file == old(file) + RawBlock(contents) && offset == |file|
                  && handle == BlockHandle(|old(file)|, |contents|)
    {
      hide EncodedBlock, RawBlock, BlockBuilder.Valid;
      var raw := block.Finish();
      handle := WriteRawBlock(raw);
      block.Reset();
    }

    method WriteRawBlock(contents: Bytes) returns (handle: BlockHandle)
      requires offset == |file|
      modifies this`file, this`offset
      ensures file == old(file) + RawBlock(contents) && offset == |file|
          && handle == BlockHandle(|old(file)|, |contents|)
    {
      handle := BlockHandle(offset, |contents|);
      file := file + RawBlock(contents);
      offset := offset + |contents| + TRAILER_SIZE;
    }
  }

  lemma {:induction false} AllWith(blocks: seq<seq<KeyValue>>, data: seq<KeyValue>)
    ensures All(blocks, data) == if data == [] then blocks else blocks + [data]
  {
  }

  lemma {:induction false} OneMoreFits(data: seq<KeyValue>, e: KeyValue, interval: nat, blockSize: nat)
    requires data == [] || (NoneEarlier(data, Full(interval, blockSize)) && |EncodedBlock(data, interval)| < blockSize)
    ensures NoneEarlier(data + [e], Full(interval, blockSize))
  {
    hide EncodedBlock;
    var more := data + [e];
    forall i | 0 < i < |more| ensures !Full(interval, blockSize)(more[..i], more[i]) {
      assert more[..i] == data[..i];
      if i == |data| {
        assert data[..i] == data;
      } else {
        assert !Full(interval, blockSize)(data[..i], data[i]);
      }
    }
  }

  lemma {:induction false} FilledMore(blocks: seq<seq<KeyValue>>, data: seq<KeyValue>, interval: nat, blockSize: nat,
      early: set<int>, small: bool)
    requires Filled(blocks, interval, blockSize, early)
    requires data != [] ==> NoneEarlier(data, Full(interval, blockSize))
    requires small <==> data == [] || |EncodedBlock(data, interval)| < blockSize
    ensures data != [] ==>
        Filled(blocks + [data], interval, blockSize, if small then early + {|blocks|} else early)
  {
    hide EncodedBlock, NoneEarlier, Full;
  }

  lemma {:induction false} PendingParts(file: Bytes, interval: nat, blocks: seq<seq<KeyValue>>,
      handles: seq<BlockHandle>, data: seq<KeyValue>, index: seq<KeyValue>)
    requires Consistent(file, interval, blocks, handles, data, index, true)
    ensures data == [] && blocks != [] && |handles| == |blocks| && blocks[|blocks| - 1] != []
        && All(blocks, data) == blocks
    ensures Concat(blocks) != [] && LastOf(Concat(blocks)) == LastOf(blocks[|blocks| - 1])
  {
    assert All(blocks, data) == blocks;
  }

  lemma {:induction false} NotPending(file: Bytes, interval: nat, blocks: seq<seq<KeyValue>>,
      handles: seq<BlockHandle>, data: seq<KeyValue>, index: seq<KeyValue>, pending: bool)
    requires Consistent(file, interval, blocks, handles, data, index, pending) && data != []
    ensures !pending && |handles| == |blocks|
  {
  }

  lemma {:induction false} OffsetGrows(blocks: seq<seq<KeyValue>>, handles: seq<BlockHandle>, data: seq<KeyValue>,
      offset: nat, next: nat, groups: seq<seq<Bytes>>, pending: seq<Bytes>)
    requires Filtered(blocks, handles, data, offset, groups, pending) && offset <= next
    ensures next / BASE >= |groups|
  {
  }

  /** After the last group of keys has got its filter. */
  lemma {:induction false} LastGroup(blocks: seq<seq<KeyValue>>, handles: seq<BlockHandle>, offset: nat,
      groups: seq<seq<Bytes>>, pending: seq<Bytes>)
    requires Filtered(blocks, handles, [], offset, groups, pending) && NonEmpty(blocks)
    ensures Covered(blocks, handles, if pending == [] then groups else groups + [pending])
  {
    hide KeysIn;
    if pending == [] {
      forall i | 0 <= i < |blocks| ensures handles[i].offset / BASE < |groups| {
        var g := handles[i].offset / BASE;
        if g == |groups| {
          assert KeysIn(blocks[i], (groups + [pending])[g]);
          SomeKey(blocks[i]);
        }
      }
    }
  }

  lemma {:induction false} SomeKey(es: seq<KeyValue>)
    requires es != []
    ensures !KeysIn(es, [])
  {
    assert es[0].key !in [];
  }

  lemma {:induction false} LastKeyIs(file: Bytes, interval: nat, blocks: seq<seq<KeyValue>>, handles: seq<BlockHandle>,
      index: seq<KeyValue>, pending: bool)
    requires Consistent(file, interval, blocks, handles, [], index, pending)
    ensures pending ==>
        blocks != [] && |handles| == |blocks| && blocks[|blocks| - 1] != [] && Concat(blocks) != []
        && LastOf(Concat(blocks)) == LastOf(blocks[|blocks| - 1])
    ensures NonEmpty(blocks) && Ordered(Concat(blocks)) && Written(file, blocks, handles, interval)
  {
    if pending {
      PendingParts(file, interval, blocks, handles, [], index);
    }
  }

  /** The index entry of the last block makes the index complete. */
  lemma {:induction false} LastIndexEntry(file: Bytes, interval: nat, blocks: seq<seq<KeyValue>>,
      handles: seq<BlockHandle>, early: seq<KeyValue>, index: seq<KeyValue>, pending: bool)
    requires Consistent(file, interval, blocks, handles, [], early, pending) && NonEmpty(blocks)
    requires pending ==> blocks != [] && |handles| == |blocks|
    requires index == if pending
        then early + [KeyValue(KeySuccessor(LastOf(blocks[|blocks| - 1])), EncodedHandle(handles[|blocks| - 1]))]
        else early
    ensures Separates(blocks, index) && LeadsTo(index, handles)
  {
    hide Concat, KeySuccessor, KeySeparator, EncodedHandle, Written;
    AllParts(blocks, []);
  }

  /** Each part of the file stays where it was written. */
  lemma {:induction false} TableFinished(flushed: Bytes, filtered: Bytes, written: Bytes, file: Bytes, layout: Layout)
    requires layout.interval >= 1 && NonEmpty(layout.blocks) && Ordered(Concat(layout.blocks))
        && Written(flushed, layout.blocks, layout.handles, layout.interval)
    requires Separates(layout.blocks, layout.index) && LeadsTo(layout.index, layout.handles)
    requires filtered == if layout.policy.Some? then flushed + RawBlock(layout.filter.contents) else flushed
    requires layout.policy.Some? ==>
        FilterIsMade(layout.policy.value, layout.blocks, layout.handles, layout.filter)
        && layout.filterHandle == BlockHandle(|flushed|, |layout.filter.contents|)
    requires var meta, index := EncodedBlock(MetaEntries(layout), layout.interval), EncodedBlock(layout.index, 1);
             && layout.metaHandle == BlockHandle(|filtered|, |meta|)
                 && layout.indexHandle == BlockHandle(|filtered + RawBlock(meta)|, |index|)
             && written == filtered + RawBlock(meta) + RawBlock(index)
    requires file == written + EncodedFooter(layout.metaHandle, layout.indexHandle)
    ensures IsTable(file, layout)
  {
    hide Concat, Separates, LeadsTo, EncodedBlock, EncodedHandle, IsFilterBlock, Covered, FilterPolicy.Valid, Written,
        BlockAt, Ordered, MetaEntries, RawBlock, EncodedFooter;
    var meta, index := EncodedBlock(MetaEntries(layout), layout.interval), EncodedBlock(layout.index, 1);
    var footer, filter := EncodedFooter(layout.metaHandle, layout.indexHandle), if layout.policy.Some?
        then RawBlock(layout.filter.contents) else [];
    Regrouped(flushed, filter, RawBlock(meta), RawBlock(index), footer);
    assert file == flushed + filter + RawBlock(meta) + RawBlock(index) + footer;
    WrittenStays(flushed, filter + RawBlock(meta) + RawBlock(index) + footer, layout.blocks, layout.handles,
        layout.interval);
    if layout.policy.Some? {
      BlockWritten(flushed, layout.filter.contents);
      BlockStays(flushed + filter, RawBlock(meta) + RawBlock(index) + footer, layout.filterHandle,
          layout.filter.contents);
    }
    BlockWritten(filtered, meta);
    BlockStays(filtered + RawBlock(meta), RawBlock(index) + footer, layout.metaHandle, meta);
    BlockWritten(filtered + RawBlock(meta), index);
    BlockStays(written, footer, layout.indexHandle, index);
    assert file[|file| - FOOTER_SIZE..] == footer;
  }

  lemma {:induction false} Regrouped<T>(a: seq<T>, b: seq<T>, c: seq<T>, d: seq<T>, e: seq<T>)
    ensures a + b + c + d + e == a + (b + c + d + e) == a + b + (c + d + e) == a + b + c + (d + e)
    ensures b == [] ==> a + b == a
  {
  }
}
