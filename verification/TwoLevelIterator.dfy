/** The two-level iterator: a cursor over all entries of many blocks, opening one block at a time. */
module TwoLevel {
  import opened Format
  import opened Blocks
  import opened Comparators
  import opened TableLayout

  /** Where a block begins among all entries; their number for i = |blocks|. */
  function StartOf(blocks: seq<seq<KeyValue>>, i: nat): nat
    requires i <= |blocks|
  {
    |Concat(blocks[..i])|
  }

  lemma {:induction false} NextStart(blocks: seq<seq<KeyValue>>, i: nat)
    requires i < |blocks|
    ensures StartOf(blocks, i + 1) == StartOf(blocks, i) + |blocks[i]| <= |Concat(blocks)|
  {
    hide Concat;
    OneMoreBlock(blocks, i);
    ConcatPrefix(blocks, i + 1);
  }

  lemma {:induction false} EndStarts(blocks: seq<seq<KeyValue>>)
    ensures StartOf(blocks, 0) == 0 && StartOf(blocks, |blocks|) == |Concat(blocks)|
  {
    assert blocks[..|blocks|] == blocks;
  }

  /** Which block an entry is in, and where. */
  lemma {:induction false} Located(blocks: seq<seq<KeyValue>>, k: nat) returns (j: nat, a: nat)
    requires k < |Concat(blocks)|
    ensures j < |blocks| && a < |blocks[j]| && k == StartOf(blocks, j) + a && Concat(blocks)[k] == blocks[j][a]
    decreases |blocks|
  {
    var n := |blocks| - 1;
    if k >= |Concat(blocks[..n])| {
      j, a := n, k - |Concat(blocks[..n])|;
    } else {
      j, a := Located(blocks[..n], k);
      assert blocks[..n][..j] == blocks[..j];
    }
  }

  /** The keys of the index: at or after what their block holds, before what later blocks hold. */
  ghost predicate Divides(blocks: seq<seq<KeyValue>>, index: seq<KeyValue>) {
    && |index| == |blocks| && Ordered(index) && Ordered(Concat(blocks))
    && (forall i, a | 0 <= i < |blocks| && 0 <= a < |blocks[i]| :: !KeyLess(index[i].key, blocks[i][a].key))
    && (forall i, j, a | 0 <= i < j < |blocks| && 0 <= a < |blocks[j]| :: KeyLess(index[i].key, blocks[j][a].key))
  }

  /** Where a child's cursor stands after Seek. */
  function Sought(es: seq<KeyValue>, target: Bytes): (i: nat)
    ensures SeekPosition(es, target, i)
  {
    if es == [] || !KeyLess(es[0].key, target) then 0
    else
      var i := Sought(es[1..], target);
      assert forall j | 1 <= j < |es| :: es[j] == es[1..][j - 1];
      1 + i
  }

  /** Entries before the place that two seeks lead to are less than the target. */
  lemma {:induction false} BeforePlaceIsLess(blocks: seq<seq<KeyValue>>, index: seq<KeyValue>, target: Bytes, i: nat,
      p: nat, k: nat)
    requires Divides(blocks, index) && SeekPosition(index, target, i)
    requires i < |blocks| ==> SeekPosition(blocks[i], target, p)
    requires k < |Concat(blocks)| && (i < |blocks| ==> k < StartOf(blocks, i) + p)
    ensures KeyLess(Concat(blocks)[k].key, target)
  {
    hide Concat, StartOf, KeyLess, Ordered;
    var j, a := Located(blocks, k);
    if j < i {
      KeyLessSplits(index[j].key, blocks[j][a].key, target);
    } else if j > i {
      StartsInOrder(blocks, i, j);
      StartsAre(blocks, i);
      StartsAre(blocks, j);
    }
  }

  lemma {:induction false} StartsAre(blocks: seq<seq<KeyValue>>, i: nat)
    requires i <= |blocks|
    ensures StartOf(blocks, i) == |Concat(blocks[..i])|
  {
  }

  /** The entry at that place, in this block or a later one, is not. */
  lemma {:induction false} PlaceIsAtOrAfter(blocks: seq<seq<KeyValue>>, index: seq<KeyValue>, target: Bytes, i: nat,
      p: nat)
    requires Divides(blocks, index) && SeekPosition(index, target, i) && i < |blocks|
        && SeekPosition(blocks[i], target, p)
    ensures var k := StartOf(blocks, i) + p; k < |Concat(blocks)| ==> !KeyLess(Concat(blocks)[k].key, target)
  {
    hide Concat, StartOf, KeyLess, Ordered;
    var k := StartOf(blocks, i) + p;
    if k < |Concat(blocks)| {
      if p < |blocks[i]| {
        ConcatAt(blocks, i, p);
        StartsAre(blocks, i);
      } else {
        var j, a := Located(blocks, k);
        StartsAre(blocks, i);
        StartsAre(blocks, j);
        if j < i {
          StartsInOrder(blocks, j, i);
        }
        if KeyLess(blocks[j][a].key, target) {
          KeyLessTransitive(index[i].key, blocks[j][a].key, target);
        }
      }
    }
  }

  /** The index of a table divides its blocks. */
  lemma {:induction false} TableIsDivided(blocks: seq<seq<KeyValue>>, index: seq<KeyValue>)
    requires NonEmpty(blocks) && Ordered(Concat(blocks)) && Separates(blocks, index)
    ensures Divides(blocks, index)
  {
    hide Concat, KeyLess, KeySeparator, KeySuccessor;
    forall i, j, a | 0 <= i <= j < |blocks| && 0 <= a < |blocks[j]|
      ensures if i == j then !KeyLess(index[i].key, blocks[j][a].key) else KeyLess(index[i].key, blocks[j][a].key)
    {
      IndexKeyBounds(blocks, index, i, j, a);
    }
    forall i, j | 0 <= i < j < |index| ensures KeyLess(index[i].key, index[j].key) {
      KeyLessSplits(index[i].key, index[j].key, blocks[j][0].key);
    }
  }

  class TwoLevelIterator {
    const index: seq<KeyValue>
    const blockFunction: Bytes -> seq<KeyValue>    // the entries of the block that an index value leads to
    var indexAt: int                                // invalid outside the index
    var data: Option<seq<KeyValue>>                 // the block that is open
    var dataAt: int                                 // invalid outside the block
    var dataBlockHandle: Bytes

    constructor (index: seq<KeyValue>, blockFunction: Bytes -> seq<KeyValue>)
      ensures Valid() && At() == None && this.index == index && this.blockFunction == blockFunction
    {
      this.index, this.blockFunction := index, blockFunction;
      indexAt, data, dataAt, dataBlockHandle := -1, None, -1, [];
    }

    function Blocks(): seq<seq<KeyValue>> {
      seq(|index|, i requires 0 <= i < |index| => blockFunction(index[i].value))
    }

    /** All entries, in order. */
    function All(): seq<KeyValue> {
      Concat(Blocks())
    }

    predicate IndexValid()
      reads this
    {
      0 <= indexAt < |index|
    }

    predicate IsValid()
      reads this
    {
      data.Some? && 0 <= dataAt < |data.value|
    }

    /** An open block is the one under the index cursor. */
    ghost predicate Open()
      reads this
    {
      && -1 <= indexAt <= |index|
      && (data.Some? ==> IndexValid() && data.value == Blocks()[indexAt] && dataBlockHandle == index[indexAt].value)
    }

    ghost predicate Valid()
      reads this
    {
      Open() && (data.Some? ==> 0 <= dataAt < |data.value|)
    }

    /** The single cursor that the two stand for. */
    ghost function At(): Option<nat>
      requires Open()
      reads this
    {
      if IsValid() then Some(StartOf(Blocks(), indexAt) + dataAt) else None
    }

    function Current(): KeyValue
      requires IsValid()
      reads this
    {
      data.value[dataAt]
    }

    /** Under the cursor is what it stands for. */
    lemma {:induction false} CurrentIs()
      requires Valid() && IsValid()
      ensures At().value < |All()| && Current() == All()[At().value]
    {
      hide Concat;
      ConcatAt(Blocks(), indexAt, dataAt);
    }

    /** Open the block under the index cursor, unless it is open already. */
    method InitDataBlock()
      requires -1 <= indexAt <= |index| && (data.Some? ==> data.value == blockFunction(dataBlockHandle))
      modifies this`data, this`dataAt, this`dataBlockHandle
      ensures Open() && (data.Some? <==> IndexValid())
      ensures old(data).Some? && IndexValid() && index[indexAt].value == old(dataBlockHandle) ==> dataAt == old(dataAt)
    {
      if !IndexValid() {
        data := None;
      } else {
        var handle := index[indexAt].value;
        if data.Some? && handle == dataBlockHandle {
        } else {
          data, dataAt := Some(blockFunction(handle)), -1;
          dataBlockHandle := handle;
        }
      }
    }

    /** Where the cursor is or would be, going forward: at an entry of the open block or at its end. */
    ghost predicate ForwardAt(m: nat)
      reads this
    {
      && Open() && indexAt >= 0 && (data.Some? <==> IndexValid())
      && m == (if data.Some? then StartOf(Blocks(), indexAt) + dataAt else |All()|)
      && (data.Some? ==> 0 <= dataAt <= |data.value|)
    }

    ghost predicate BackwardAt(m: int)
      reads this
    {
      && Open() && indexAt < |index| && (data.Some? <==> IndexValid())
      && m == (if data.Some? then StartOf(Blocks(), indexAt) + dataAt else -1)
      && (data.Some? ==> -1 <= dataAt < |data.value|)
    }

    method SkipEmptyDataBlocksForward(ghost m: nat)
      requires ForwardAt(m)
      modifies this
      ensures Valid() && m <= |All()| && At() == if m < |All()| then Some(m) else None
    {
      hide Concat, StartOf;
      EndStarts(Blocks());
      while data.None? || !IsValid()
        invariant ForwardAt(m)
        decreases |index| - indexAt
      {
        if !IndexValid() {
          data := None;
          return;
        }
        NextStart(Blocks(), indexAt);
        indexAt := indexAt + 1;
        InitDataBlock();
        if data.Some? {
          dataAt := 0;
        }
      }
      NextStart(Blocks(), indexAt);
    }

    method SkipEmptyDataBlocksBackward(ghost m: int)
      requires BackwardAt(m)
      modifies this
      ensures Valid() && -1 <= m < |All()| && At() == if m >= 0 then Some(m) else None
    {
      hide Concat, StartOf;
      EndStarts(Blocks());
      while data.None? || !IsValid()
        invariant BackwardAt(m)
        decreases indexAt
      {
        if !IndexValid() {
          data := None;
          return;
        }
        if indexAt > 0 {
          NextStart(Blocks(), indexAt - 1);
        }
        indexAt := indexAt - 1;
        InitDataBlock();
        if data.Some? {
          dataAt := |data.value| - 1;
        }
      }
      NextStart(Blocks(), indexAt);
    }

    method SeekToFirst()
      requires Valid()
      modifies this
      ensures Valid() && At() == if All() == [] then None else Some(0)
    {
      hide Concat, StartOf;
      EndStarts(Blocks());
      indexAt := 0;
      InitDataBlock();
      if data.Some? {
        dataAt := 0;
      }
      SkipEmptyDataBlocksForward(0);
    }

    method SeekToLast()
      requires Valid()
      modifies this
      ensures Valid() && At() == if All() == [] then None else Some(|All()| - 1)
    {
      hide Concat, StartOf;
      EndStarts(Blocks());
      indexAt := |index| - 1;
      if indexAt >= 0 {
        NextStart(Blocks(), indexAt);
      }
      InitDataBlock();
      if data.Some? {
        dataAt := |data.value| - 1;
      }
      SkipEmptyDataBlocksBackward(|All()| - 1);
    }

    method Next()
      requires Valid() && IsValid()
      modifies this
      ensures Valid() && At() == if old(At()).value + 1 < |All()| then Some(old(At()).value + 1) else None
    {
      hide Concat, StartOf;
      ghost var m := At().value;
      dataAt := dataAt + 1;
      SkipEmptyDataBlocksForward(m + 1);
    }

    method Prev()
      requires Valid() && IsValid()
      modifies this
      ensures Valid() && At() == if old(At()).value > 0 then Some(old(At()).value - 1) else None
    {
      hide Concat, StartOf;
      ghost var m: int := At().value;
      dataAt := dataAt - 1;
      SkipEmptyDataBlocksBackward(m - 1);
    }

    /** To the first entry at or after the target, which may be in a later block than the index says. */
    method Seek(target: Bytes)
      requires Valid() && Divides(Blocks(), index)
      modifies this
      ensures Valid()
      ensures match At()
              case Some(m) => m < |All()| && !KeyLess(All()[m].key, target)
                  && forall k | 0 <= k < m :: KeyLess(All()[k].key, target)
              case None => forall k | 0 <= k < |All()| :: KeyLess(All()[k].key, target)
    {
      hide Concat, StartOf, KeyLess, Divides, SeekPosition;
      indexAt := Sought(index, target);
      SoughtInside(index, target);
      ghost var i, p, m := indexAt, 0, |All()|;
      InitDataBlock();
      if data.Some? {
        dataAt := Sought(data.value, target);
        SoughtInside(data.value, target);
        p := dataAt;
        m := StartOf(Blocks(), i) + p;
        PlaceIsAtOrAfter(Blocks(), index, target, i, p);
      }
      SkipEmptyDataBlocksForward(m);
      forall k | 0 <= k < m ensures KeyLess(All()[k].key, target) {
        BeforePlaceIsLess(Blocks(), index, target, i, p, k);
      }
    }
  }

  lemma {:induction false} SoughtInside(es: seq<KeyValue>, target: Bytes)
    ensures Sought(es, target) <= |es|
  {
  }
}
