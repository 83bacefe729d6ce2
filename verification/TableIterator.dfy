/** The iterator of a table: a cursor over its index block and one over a data block, over the file. */
module TableIterators {
  import opened Format
  import opened Blocks
  import opened BlockIter
  import opened Comparators
  import opened TableFormat
  import opened TableLayout
  import opened Tables
  import opened TwoLevel

  // ---------- Blocks are told apart by their handles ----------

  /** The first key of a block can be read off its bytes. */
  function FirstKey(data: Bytes): Bytes
    requires |data| >= 4
  {
    var size := |data| - (1 + NumRestarts(data)) * 4;
    if size < 0 then []
    else
      match DecodeEntry(data[..size])
      case None => []
      case Some((_, nonShared, _, header)) =>
        if header + nonShared > |data| then [] else data[header..header + nonShared]
  }

  lemma {:induction false} FirstKeyIs(data: Bytes, es: seq<KeyValue>, interval: nat)
    requires WellBuilt(data, es, interval) && es != []
    ensures |data| >= 4 && FirstKey(data) == es[0].key
  {
    hide EncodedEntries, DecodeEntry, WellBuilt, Header, Restarts;
    BlockLayout(data, es, interval);
    EntryParses(data, es, interval, 0);
    NothingShared(es, interval);
    assert es[0].key[0..] == es[0].key;
  }

  lemma {:induction false} NothingShared(es: seq<KeyValue>, interval: nat)
    requires es != []
    ensures Offset(es, interval, 0) == 0 && SharedWith(es[..0], es[0], interval) == 0
  {
  }

  /** No two blocks of a table have the same handle. */
  lemma {:induction false} HandlesApart(file: Bytes, layout: Layout, i: nat, j: nat)
    requires IsTable(file, layout) && Fits(file, layout) && i < |layout.index| && j < |layout.index|
    requires layout.index[i].value == layout.index[j].value
    ensures i == j
    decreases j < i
  {
    hide IsTable, Fits, EncodedBlock, ReadBlock, DecodeHandle, WellBuilt, BlockAt, Concat, KeyLess, FirstKey;
    if j < i {
      HandlesApart(file, layout, j, i);
    } else if i < j {
      EntryLeads(file, layout, i);
      EntryLeads(file, layout, j);
      TableParts(file, layout);
      BlockReads(file, layout.handles[i], EncodedBlock(layout.blocks[i], layout.interval), false);
      BlockReads(file, layout.handles[j], EncodedBlock(layout.blocks[j], layout.interval), false);
      FirstKeyIs(EncodedBlock(layout.blocks[i], layout.interval), layout.blocks[i], layout.interval);
      FirstKeyIs(EncodedBlock(layout.blocks[j], layout.interval), layout.blocks[j], layout.interval);
      InOrder(layout.blocks, i, 0, j, 0);
      NotLessItself(layout.blocks[i][0].key);
      assert false;
    }
  }

  // ---------- The cursor ----------

  /** Where a cursor over a block stands: at an entry, before the first or behind the last. */
  ghost predicate Stands(iter: Iter, es: seq<KeyValue>, i: int)
    reads iter
  {
    iter.Valid() && iter.es == es && -1 <= i <= |es| && iter.At() == if 0 <= i < |es| then Some(i as nat) else None
  }

  lemma {:induction false} OnSome(iter: Iter, es: seq<KeyValue>, i: int)
    requires Stands(iter, es, i) && iter.IsValid()
    ensures 0 <= i < |es| && iter.at == i && iter.key == es[i].key && iter.Value() == es[i].value
  {
    hide WellBuilt, EncodedEntries, Offset, RestartEntries;
  }

  method SeekIn(iter: Iter, target: Bytes, ghost es: seq<KeyValue>) returns (ghost p: nat)
    requires iter.Valid() && iter.es == es && Increasing(es, KeyLess)
    modifies iter
    ensures Stands(iter, es, p) && SeekPosition(es, target, p)
  {
    hide KeyLess, WellBuilt, EncodedEntries, Offset, RestartEntries;
    KeyLessIsStrict();
    iter.Seek(target, KeyLess);
    p := SeekResult(iter.At(), es, target);
  }

  class TableIterator {
    const table: TableReader
    const verifyChecksums: bool
    const indexIter: Iter
    var dataIter: Iter?
    var dataBlockHandle: Bytes
    ghost var indexAt: int
    ghost var openBlock: nat
    ghost var dataAt: int

    ghost function Blocks(): seq<seq<KeyValue>> {
      table.layout.blocks
    }

    ghost predicate IndexOk()
      reads this, table, indexIter
    {
      table.Valid() && Stands(indexIter, table.layout.index, indexAt)
    }

    /** An open block is the one its handle leads to. */
    ghost predicate DataOk()
      reads this, dataIter
    {
      dataIter != null ==>
        && dataIter != indexIter && openBlock < |Blocks()| && openBlock < |table.layout.index|
        && Stands(dataIter, Blocks()[openBlock], dataAt) && dataBlockHandle == table.layout.index[openBlock].value
    }

    /** And it is the one under the index cursor. */
    ghost predicate Open()
      reads this, table, indexIter, dataIter
    {
      && IndexOk() && DataOk()
      && if dataIter == null then !(0 <= indexAt < |Blocks()|) else openBlock == indexAt
    }

    ghost predicate Valid()
      reads this, table, indexIter, dataIter
    {
      Open() && (dataIter != null ==> dataIter.IsValid())
    }

    predicate IsValid()
      reads this, dataIter
    {
      dataIter != null && dataIter.IsValid()
    }

    /** The single cursor that the two stand for. */
    ghost function At(): Option<nat>
      requires Open()
      reads this, table, indexIter, dataIter
    {
      if IsValid() then Some(StartOf(Blocks(), openBlock) + dataAt as nat) else None
    }

    function Current(): KeyValue
      requires Valid() && IsValid()
      reads this, table, indexIter, dataIter
    {
      OnSome(dataIter, Blocks()[openBlock], dataAt);
      KeyValue(dataIter.key, dataIter.Value())
    }

    /** Under the cursor is the entry it stands for. */
    lemma {:induction false} CurrentIs()
      requires Valid() && IsValid()
      ensures At().value < |table.Entries()| && Current() == table.Entries()[At().value]
    {
      hide Concat, IsTable, Fits, Iter.Valid, EncodedBlock;
      OnSome(dataIter, Blocks()[openBlock], dataAt);
      ConcatAt(Blocks(), openBlock, dataAt);
    }

    constructor (table: TableReader, verifyChecksums: bool)
      requires table.Valid()
      ensures Valid() && At() == None && this.table == table && fresh(indexIter) && dataIter == null
    {
      hide IsTable, Fits, EncodedBlock, Iter.Valid;
      TableParts(table.file, table.layout);
      this.table, this.verifyChecksums := table, verifyChecksums;
      indexIter := new Iter(table.indexBlock, table.layout.index, 1);
      dataIter, dataBlockHandle := null, [];
      indexAt, openBlock, dataAt := -1, 0, -1;
    }

    lemma {:induction false} TableHas()
      requires table.Valid()
      ensures |Blocks()| == |table.layout.index| && Increasing(table.layout.index, KeyLess)
      ensures TwoLevel.Divides(Blocks(), table.layout.index) && table.Entries() == Concat(Blocks())
      ensures forall i | 0 <= i < |Blocks()| :: Increasing(Blocks()[i], KeyLess)
    {
      hide IsTable, Fits, EncodedBlock, Concat, KeyLess;
      TableParts(table.file, table.layout);
      TableIsDivided(Blocks(), table.layout.index);
      IndexIsSorted(table.layout);
      forall i | 0 <= i < |Blocks()| ensures Increasing(Blocks()[i], KeyLess) {
        BlockIsSorted(table.layout, i);
      }
    }

    /** Open the block under the index cursor, unless it is open already. */
    method InitDataBlock()
      requires IndexOk() && DataOk() && |Blocks()| == |table.layout.index|
      modifies this`dataIter, this`dataBlockHandle, this`openBlock, this`dataAt
      ensures Open() && (dataIter != null <==> 0 <= indexAt < |Blocks()|)
      ensures dataIter == null || dataIter == old(dataIter) || fresh(dataIter)
      ensures old(dataIter) != null && old(openBlock) == indexAt ==> dataIter == old(dataIter)
    {
      hide IsTable, Fits, Iter.Valid;
      if !indexIter.IsValid() {
        dataIter := null;
      } else {
        var handle := indexIter.Value();
        if dataIter != null && handle == dataBlockHandle {
          HandlesApart(table.file, table.layout, openBlock, indexAt);
        } else {
          dataIter := table.BlockReader(handle, verifyChecksums, indexAt);
          openBlock, dataAt := indexAt, -1;
          dataBlockHandle := handle;
        }
      }
    }

    method OpenAtFirst()
      requires IndexOk() && DataOk() && |Blocks()| == |table.layout.index|
      modifies this`dataIter, this`dataBlockHandle, this`openBlock, this`dataAt, dataIter
      ensures Open() && (dataIter != null ==> dataAt == 0)
      ensures dataIter == null || dataIter == old(dataIter) || fresh(dataIter)
    {
      hide TableReader.Valid, Iter.Valid;
      InitDataBlock();
      if dataIter != null {
        dataIter.SeekToFirst();
        dataAt := 0;
      }
    }

    method OpenAtLast()
      requires IndexOk() && DataOk() && |Blocks()| == |table.layout.index|
      modifies this`dataIter, this`dataBlockHandle, this`openBlock, this`dataAt, dataIter
      ensures Open() && (dataIter != null ==> dataAt == |Blocks()[openBlock]| - 1)
      ensures dataIter == null || dataIter == old(dataIter) || fresh(dataIter)
    {
      hide TableReader.Valid, Iter.Valid;
      InitDataBlock();
      if dataIter != null {
        dataIter.SeekToLast();
        dataAt := |Blocks()[openBlock]| - 1;
      }
    }

    /** Where the cursor is or would be, going forward: at an entry of the open block or at its end. */
    ghost predicate ForwardAt(m: nat)
      reads this, table, indexIter, dataIter
    {
      && Open() && indexAt >= 0 && (dataIter != null ==> dataAt >= 0)
      && m == if dataIter != null then StartOf(Blocks(), openBlock) + dataAt else |table.Entries()|
    }

    ghost predicate BackwardAt(m: int)
      reads this, table, indexIter, dataIter
    {
      && Open() && indexAt < |Blocks()| && (dataIter != null ==> dataAt < |Blocks()[openBlock]|)
      && m == if dataIter != null then StartOf(Blocks(), openBlock) + dataAt else -1
    }

    method SkipEmptyDataBlocksForward(ghost m: nat)
      requires ForwardAt(m)
      modifies this, indexIter, dataIter
      ensures Valid() && m <= |table.Entries()| && At() == if m < |table.Entries()| then Some(m) else None
      ensures dataIter == null || dataIter == old(dataIter) || fresh(dataIter)
    {
      hide Concat, StartOf, TableReader.Valid, Iter.Valid, TwoLevel.Divides;
      TableHas();
      EndStarts(Blocks());
      while dataIter == null || !dataIter.IsValid()
        invariant ForwardAt(m) && (dataIter == null || dataIter == old(dataIter) || fresh(dataIter))
        decreases |Blocks()| - indexAt
      {
        if !indexIter.IsValid() {
          dataIter := null;
          return;
        }
        NextStart(Blocks(), indexAt);
        indexIter.Next();
        indexAt := indexAt + 1;
        OpenAtFirst();
      }
      NextStart(Blocks(), openBlock);
    }

    method SkipEmptyDataBlocksBackward(ghost m: int)
      requires BackwardAt(m)
      modifies this, indexIter, dataIter
      ensures Valid() && -1 <= m < |table.Entries()| && At() == if m >= 0 then Some(m) else None
      ensures dataIter == null || dataIter == old(dataIter) || fresh(dataIter)
    {
      hide Concat, StartOf, TableReader.Valid, Iter.Valid, TwoLevel.Divides;
      TableHas();
      EndStarts(Blocks());
      while dataIter == null || !dataIter.IsValid()
        invariant BackwardAt(m) && (dataIter == null || dataIter == old(dataIter) || fresh(dataIter))
        decreases indexAt
      {
        if !indexIter.IsValid() {
          dataIter := null;
          return;
        }
        if indexAt > 0 {
          NextStart(Blocks(), indexAt - 1);
        }
        indexIter.Prev();
        indexAt := indexAt - 1;
        OpenAtLast();
      }
      NextStart(Blocks(), openBlock);
    }

    method SeekToFirst()
      requires Valid()
      modifies this, indexIter, dataIter
      ensures Valid() && At() == if table.Entries() == [] then None else Some(0)
      ensures dataIter == null || dataIter == old(dataIter) || fresh(dataIter)
    {
      hide Concat, StartOf, TableReader.Valid, Iter.Valid, TwoLevel.Divides;
      TableHas();
      EndStarts(Blocks());
      indexIter.SeekToFirst();
      indexAt := 0;
      OpenAtFirst();
      SkipEmptyDataBlocksForward(0);
    }

    method SeekToLast()
      requires Valid()
      modifies this, indexIter, dataIter
      ensures Valid() && At() == if table.Entries() == [] then None else Some(|table.Entries()| - 1)
      ensures dataIter == null || dataIter == old(dataIter) || fresh(dataIter)
    {
      hide Concat, StartOf, TableReader.Valid, Iter.Valid, TwoLevel.Divides;
      TableHas();
      EndStarts(Blocks());
      indexIter.SeekToLast();
      indexAt := |Blocks()| - 1;
      if indexAt >= 0 {
        NextStart(Blocks(), indexAt);
      }
      OpenAtLast();
      SkipEmptyDataBlocksBackward(|table.Entries()| - 1);
    }

    method Next()
      requires Valid() && IsValid()
      modifies this, indexIter, dataIter
      ensures Valid()
      ensures At() == if old(At()).value + 1 < |table.Entries()| then Some(old(At()).value + 1) else None
      ensures dataIter == null || dataIter == old(dataIter) || fresh(dataIter)
    {
      hide Concat, StartOf, TableReader.Valid, Iter.Valid;
      ghost var m := At().value;
      dataIter.Next();
      dataAt := dataAt + 1;
      SkipEmptyDataBlocksForward(m + 1);
    }

    method Prev()
      requires Valid() && IsValid()
      modifies this, indexIter, dataIter
      ensures Valid() && At() == if old(At()).value > 0 then Some(old(At()).value - 1) else None
      ensures dataIter == null || dataIter == old(dataIter) || fresh(dataIter)
    {
      hide Concat, StartOf, TableReader.Valid, Iter.Valid;
      ghost var m: int := At().value;
      dataIter.Prev();
      dataAt := dataAt - 1;
      SkipEmptyDataBlocksBackward(m - 1);
    }

    /** To the first entry at or after the target, which may be in a later block than the index says. */
    method Seek(target: Bytes)
      requires Valid()
      modifies this, indexIter, dataIter
      ensures Valid() && SeekPosition(table.Entries(), target, if At().Some? then At().value else |table.Entries()|)
      ensures dataIter == null || dataIter == old(dataIter) || fresh(dataIter)
    {
      hide Concat, StartOf, TableReader.Valid, Iter.Valid, KeyLess, TwoLevel.Divides, SeekPosition;
      TableHas();
      ghost var i := SeekIn(indexIter, target, table.layout.index);
      indexAt := i;
      InitDataBlock();
      ghost var p, m := 0, |table.Entries()|;
      if dataIter != null {
        p := SeekIn(dataIter, target, Blocks()[openBlock]);
        dataAt := p;
        m := StartOf(Blocks(), i) + p;
        PlaceIsAtOrAfter(Blocks(), table.layout.index, target, i, p);
      }
      SkipEmptyDataBlocksForward(m);
      forall k | 0 <= k < m ensures KeyLess(table.Entries()[k].key, target) {
        BeforePlaceIsLess(Blocks(), table.layout.index, target, i, p, k);
      }
      AtPlace(table.Entries(), target, m);
    }
  }

  lemma {:induction false} AtPlace(es: seq<KeyValue>, target: Bytes, m: nat)
    requires m <= |es| && (forall k | 0 <= k < m :: KeyLess(es[k].key, target))
    requires m < |es| ==> !KeyLess(es[m].key, target)
    ensures SeekPosition(es, target, m)
  {
    hide KeyLess;
  }
}
