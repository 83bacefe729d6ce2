/** The memtable: a skip list of entries, looked up by user key and snapshot. */
module MemTables {
  import opened Format
  import opened SkipLists

  class MemTable {
    const table: SkipList

    ghost predicate Valid()
      reads this, table
    {
      table.Valid()
    }

    ghost function Entries(): seq<Entry>
      requires Valid()
      reads this, table
    {
      table.Elements()
    }

    constructor ()
      ensures Valid() && Entries() == [] && fresh(table)
    {
      table := new SkipList();
    }

    /** Add an entry; the height of its node is drawn at random. */
    method Add(sequence: SequenceNumber, kind: ValueType, user: UserKey, value: Bytes, height: nat)
      requires Valid() && 1 <= height <= MAX_HEIGHT
      requires forall e | e in Entries() :: e.key != InternalKey(user, sequence, kind)
      modifies table
      ensures Valid()
      ensures Entries() == InsertEntry(old(Entries()), Entry(InternalKey(user, sequence, kind), value))
      ensures Sorted(Entries())
          && SetOf(Entries()) == SetOf(old(Entries())) + {Entry(InternalKey(user, sequence, kind), value)}
    {
      hide ListsOk;
      var e := Entry(InternalKey(user, sequence, kind), value);
      ContentsAt(table.memory, table.lists);
      assert forall k | 0 <= k < |Entries()| :: Entries()[k] in Entries();
      InsertEntryHolds(Entries(), e);
      table.Insert(e, height);
    }

    /** The newest entry of a user key that a snapshot sees: the first one at or after the seek key,
        if it is of that user key. */
    method Get(user: UserKey, snapshot: SequenceNumber) returns (r: Option<Entry>)
      requires Valid()
      ensures r == PointGet(Entries(), user, snapshot)
      ensures r.None? <==> Unseen(SetOf(Entries()), user, snapshot)
      ensures r.Some? ==> Newest(SetOf(Entries()), user, snapshot, r.value)
    {
      hide ListsOk, Unseen, Newest, Less, Sorted;
      ContentsAt(table.memory, table.lists);
      PointGetIsNewest(Entries(), user, snapshot);
      var node, prev := table.FindGreaterOrEqual(SeekKey(user, snapshot));
      if node.Some? && table.memory[node.value].entry.key.user == user {
        return Some(table.memory[node.value].entry);
      }
      return None;
    }
  }
}
