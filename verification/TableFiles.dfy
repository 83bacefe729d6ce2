/** A run of entries as a table file: what is built from the run is read back as the run reads. */
module TableFiles {
  import opened Format
  import opened Blocks
  import opened Bloom
  import opened Comparators
  import opened KeyEncoding
  import opened TableLayout
  import opened TableBuilders
  import opened Tables

  function Row(names: Naming, e: Entry): KeyValue {
    KeyValue(KeyBytes(names, e.key), e.value)
  }

  function Rows(names: Naming, es: seq<Entry>): seq<KeyValue> {
    seq(|es|, i requires 0 <= i < |es| => Row(names, es[i]))
  }

  ghost function Users(es: seq<Entry>): set<UserKey> {
    set e | e in es :: e.key.user
  }

  // ---------- Writing ----------

  lemma {:induction false} RowsInOrder(names: Naming, es: seq<Entry>, i: nat, j: nat)
    requires Sorted(es) && Ranks(names, Users(es)) && i < j < |es|
    ensures KeyLess(Row(names, es[i]).key, Row(names, es[j]).key)
  {
    hide KeyBytes, KeyLess, Less;
    assert es[i] in es && es[j] in es;
    KeysAlike(names, Users(es), es[i].key, es[j].key);
  }

  lemma {:induction false} RowsSnoc(names: Naming, es: seq<Entry>, i: nat)
    requires i < |es|
    ensures Rows(names, es[..i + 1]) == Rows(names, es[..i]) + [Row(names, es[i])]
    ensures i > 0 ==> Rows(names, es[..i]) != [] && LastOf(Rows(names, es[..i])) == Row(names, es[i - 1]).key
  {
    hide Row;
  }

  /** Write the entries of a run to a table, in order; with no entries there is no file. */
  method BuildTable(names: Naming, es: seq<Entry>, blockSize: nat, interval: nat, policy: Option<FilterPolicy>)
    returns (file: Option<Bytes>, smallest: Bytes, largest: Bytes, ghost layout: Option<Layout>)
    requires Sorted(es) && Ranks(names, Users(es)) && interval >= 1 && (policy.Some? ==> policy.value.Valid())
    ensures file.Some? <==> es != []
    ensures es != [] ==>
              && layout.Some? && IsTable(file.value, layout.value) && Concat(layout.value.blocks) == Rows(names, es)
              && layout.value.policy == policy && layout.value.interval == interval
              && FilledInOrder(layout.value.blocks, interval, blockSize)
              && smallest == KeyBytes(names, es[0].key) && largest == KeyBytes(names, es[|es| - 1].key)
  {
    hide Sorted, Ranks, IsTable, Concat, KeyBytes, KeyLess, FilterPolicy.Valid, Rows, TableBuilder.Valid, Filled,
        FilledInOrder;
    file, smallest, largest, layout := None, [], [], None;
    if es == [] {
      return;
    }
    var builder := new TableBuilder(blockSize, interval, policy);
    smallest := KeyBytes(names, es[0].key);
    assert Rows(names, es[..0]) == [] by { NoRows(names, es); }
    for i := 0 to |es|
      invariant builder.Valid() && !builder.closed && fresh(builder) && fresh(builder.dataBlock)
          && fresh(builder.indexBlock)
      invariant builder.filterBlock != null ==> fresh(builder.filterBlock)
      invariant builder.policy == policy && builder.blockSize == blockSize && builder.dataBlock.interval == interval
      invariant builder.early == {} && builder.Entries() == Rows(names, es[..i])
      invariant i > 0 ==> largest == KeyBytes(names, es[i - 1].key)
    {
      RowsSnoc(names, es, i);
      if i > 0 {
        RowsInOrder(names, es, i - 1, i);
      }
      largest := KeyBytes(names, es[i].key);
      builder.Add(largest, es[i].value);
    }
    assert es[..|es|] == es;
    ghost var made := builder.Finish();
    file, layout := Some(builder.file), Some(made);
  }

  lemma {:induction false} NoRows(names: Naming, es: seq<Entry>)
    ensures Rows(names, es[..0]) == []
  {
  }

  // ---------- Reading ----------

  lemma {:induction false} TagsSee(k: InternalKey, u: UserKey, s: SequenceNumber)
    ensures Tag(k) <= Tag(SeekKey(u, s)) <==> k.sequence <= s
  {
  }

  /** A stored row is visible exactly when its entry is. */
  lemma {:induction false} RowVisible(names: Naming, users: set<UserKey>, e: Entry, u: UserKey, s: SequenceNumber)
    requires Ranks(names, users) && e.key.user in users && u in users
    ensures Visible(Row(names, e), names.user(u), Tag(SeekKey(u, s))) <==> Sees(e, u, s)
  {
    hide KeyBytes, UserOf, TagOf, Tag, Ranks;
    BytesHold(names, e.key);
    SameRankSameBytes(names, users, e.key.user, u);
    TagsSee(e.key, u, s);
  }

  /** Of what is visible, a point lookup finds the greatest tag. */
  lemma {:induction false} PointGetHasGreatestTag(es: seq<Entry>, u: UserKey, s: SequenceNumber, x: Entry)
    requires Sorted(es) && x in es && Sees(x, u, s)
    ensures var e := PointGet(es, u, s);
            e.Some? && e.value in es && Sees(e.value, u, s) && Tag(x.key) <= Tag(e.value.key)
                && (Tag(x.key) == Tag(e.value.key) ==> x == e.value)
  {
    hide Tag, SeekKey;
    PointGetIsNewest(es, u, s);
    var i := SeekIndex(es, SeekKey(u, s));
    var j :| 0 <= j < |es| && es[j] == x;
    assert x in SetOf(es);
    SeekSkipsExactlyTheUnseen(x.key, u, s);
    if i < j {
      assert Less(es[i].key, es[j].key);
    }
  }

  /** The row found and the entry that a point lookup of the run finds are the same. */
  lemma {:induction false} FoundAlike(names: Naming, users: set<UserKey>, es: seq<Entry>, u: UserKey,
      s: SequenceNumber, r: KeyValue)
    requires Sorted(es) && Ranks(names, users) && Users(es) <= users && u in users
    requires NewestVisible(Rows(names, es), names.user(u), Tag(SeekKey(u, s)), r)
    ensures PointGet(es, u, s).Some? && r == Row(names, PointGet(es, u, s).value)
  {
    hide Sorted, Ranks, Row, Tag, SeekKey, PointGet, Visible;
    var rows := Rows(names, es);
    var j :| 0 <= j < |rows| && rows[j] == r;
    assert es[j] in es && es[j].key.user in Users(es);
    RowVisible(names, users, es[j], u, s);
    PointGetHasGreatestTag(es, u, s, es[j]);
    var e := PointGet(es, u, s).value;
    assert e.key.user in Users(es);
    RowVisible(names, users, e, u, s);
    var i :| 0 <= i < |es| && es[i] == e;
    assert rows[i] == Row(names, e);
    RowTag(names, e);
    RowTag(names, es[j]);
  }

  lemma {:induction false} RowTag(names: Naming, e: Entry)
    ensures TagOf(Row(names, e).key) == Tag(e.key) && UserOf(Row(names, e).key) == names.user(e.key.user)
  {
    hide KeyBytes, UserOf, TagOf, Tag;
    BytesHold(names, e.key);
  }

  lemma {:induction false} SeenInRows(names: Naming, users: set<UserKey>, es: seq<Entry>, u: UserKey, s: SequenceNumber)
    requires Sorted(es) && Ranks(names, users) && Users(es) <= users && u in users && PointGet(es, u, s).Some?
    ensures exists r :: r in Rows(names, es) && Visible(r, names.user(u), Tag(SeekKey(u, s)))
  {
    hide Sorted, Ranks, Row, Tag, SeekKey, PointGet, Visible;
    PointGetIsNewest(es, u, s);
    var e := PointGet(es, u, s).value;
    assert e in es && e.key.user in Users(es);
    RowVisible(names, users, e, u, s);
    var i :| 0 <= i < |es| && es[i] == e;
    assert Rows(names, es)[i] == Row(names, e);
  }

  /** A lookup in the table of a run, for a user key at a sequence number, finds what a point lookup
      of the run finds. */
  method TableGet(table: TableReader, names: Naming, ghost es: seq<Entry>, u: UserKey, s: SequenceNumber,
      verifyChecksums: bool) returns (r: Option<(ValueType, Bytes)>)
    requires table.Valid() && table.Entries() == Rows(names, es)
    requires Sorted(es) && Ranks(names, Users(es) + {u})
    ensures r == match PointGet(es, u, s) case None => None case Some(e) => Some((e.key.kind, e.value))
  {
    hide Sorted, Ranks, KeyBytes, Row, Rows, Tag, SeekKey, PointGet, Visible, NewestVisible, UserOf, TagOf,
        TableReader.Valid, Concat;
    var key := KeyBytes(names, SeekKey(u, s));
    BytesHold(names, SeekKey(u, s));
    assert SeekKey(u, s).user == u by { SeekUser(u, s); }
    var found := table.InternalGet(key, verifyChecksums);
    if PointGet(es, u, s).Some? {
      SeenInRows(names, Users(es) + {u}, es, u, s);
    }
    if found.Some? && UserOf(found.value.key) == UserOf(key) {
      FoundAlike(names, Users(es) + {u}, es, u, s, found.value);
      RowTag(names, PointGet(es, u, s).value);
      RowParts(names, PointGet(es, u, s).value);
      return Some((if TagOf(found.value.key) % 256 == 1 then Put else Deletion, found.value.value));
    }
    r := None;
  }

  lemma {:induction false} SeekUser(u: UserKey, s: SequenceNumber)
    ensures SeekKey(u, s).user == u
  {
  }

  lemma {:induction false} RowParts(names: Naming, e: Entry)
    ensures Row(names, e).value == e.value && (Tag(e.key) % 256 == 1 <==> e.key.kind == Put)
  {
  }
}
