/** nanopb: the field iterator, which goes round in a circle, and the decoder that uses it. */
module NanopbFields {
  import opened Format
  import opened NanopbFormat
  import opened NanopbDecode
  import opened NanopbRoundTrip
  import opened NanopbMerge
  import opened NanopbEncode

  /** An entry of the field table: every member of a oneof has its own. `field` is where in the
      message its value goes. */
  datatype Descriptor = Descriptor(tag: nat, required: bool, field: nat, member: nat)

  function OfMembers(ms: Members, field: nat, member: nat): seq<Descriptor> {
    if ms.NoMembers? then [] else [Descriptor(ms.tag, false, field, member)] + OfMembers(ms.tail, field, member + 1)
  }

  function OfField(f: Field, i: nat): seq<Descriptor> {
    if f.OneOf? then OfMembers(f.members, i, 0) else [Descriptor(f.tag, f.Required?, i, 0)]
  }

  function Table(fs: Fields, i: nat): seq<Descriptor> {
    if fs.NoFields? then [] else OfField(fs.head, i) + Table(fs.tail, i + 1)
  }

  function RequiredBefore(table: seq<Descriptor>, k: nat): nat
    requires k <= |table|
  {
    if k == 0 then 0 else RequiredBefore(table, k - 1) + if table[k - 1].required then 1 else 0
  }

  predicate Has(table: seq<Descriptor>, tag: nat) {
    exists k :: 0 <= k < |table| && table[k].tag == tag
  }

  // ---------- The table and the schema ----------

  lemma {:induction false} MemberAt(ms: Members, field: nat, member: nat, k: nat)
    requires MembersOk(ms) && k < |OfMembers(ms, field, member)|
    ensures var d := OfMembers(ms, field, member)[k];
            && d.field == field && !d.required && d.member >= member && d.tag > 0
                && FindMember(ms, d.tag) == Some(d.member - member)
    ensures RequiredBefore(OfMembers(ms, field, member), k + 1) == 0
    decreases ms
  {
    if k > 0 {
      MemberAt(ms.tail, field, member + 1, k - 1);
      var tail := OfMembers(ms.tail, field, member + 1);
      RequiredInTail([Descriptor(ms.tag, false, field, member)], tail, k);
    }
  }

  lemma {:induction false} RequiredInTail(a: seq<Descriptor>, b: seq<Descriptor>, k: nat)
    requires k <= |b|
    ensures RequiredBefore(a + b, |a| + k) == RequiredBefore(a, |a|) + RequiredBefore(b, k)
    decreases k
  {
    if k == 0 {
      RequiredInFront(a, b, |a|);
    } else {
      RequiredInTail(a, b, k - 1);
    }
  }

  lemma {:induction false} RequiredInFront(a: seq<Descriptor>, b: seq<Descriptor>, k: nat)
    requires k <= |a|
    ensures RequiredBefore(a + b, k) == RequiredBefore(a, k)
    decreases k
  {
    if k > 0 {
      RequiredInFront(a, b, k - 1);
    }
  }

  lemma {:induction false} MembersRequireNothing(ms: Members, field: nat, member: nat)
    ensures RequiredBefore(OfMembers(ms, field, member), |OfMembers(ms, field, member)|) == 0
    decreases ms
  {
    if ms.MembersOf? {
      MembersRequireNothing(ms.tail, field, member + 1);
      var tail := OfMembers(ms.tail, field, member + 1);
      RequiredInTail([Descriptor(ms.tag, false, field, member)], tail, |tail|);
    }
  }

  lemma {:induction false} RequiredOfField(f: Field, i: nat)
    ensures RequiredBefore(OfField(f, i), |OfField(f, i)|) == if f.Required? then 1 else 0
  {
    if f.OneOf? {
      MembersRequireNothing(f.members, i, 0);
    } else {
      assert RequiredBefore(OfField(f, i), 0) == 0;
    }
  }

  /** What stands at a place of the table is what the schema finds for its tag, with as many required
      fields before it. */
  lemma {:induction false} EntryIsFound(fs: Fields, i: nat, k: nat)
    requires SchemaOk(fs) && k < |Table(fs, i)|
    ensures var d := Table(fs, i)[k];
            && d.tag > 0 && i <= d.field < i + Count(fs) && FindField(fs, d.tag) == Some((d.field - i, d.member))
            && d.required == FieldAt(fs, d.field - i).Required?
            && RequiredBefore(Table(fs, i), k) == RequiredIndex(fs, d.field - i)
    decreases fs
  {
    hide TypeOk;
    var head, tail := OfField(fs.head, i), Table(fs.tail, i + 1);
    assert RequiredIndex(fs, 0) == 0;
    if k < |head| {
      RequiredInFront(head, tail, k);
      if fs.head.OneOf? {
        MemberAt(fs.head.members, i, 0, k);
      }
    } else {
      var j := k - |head|;
      EntryIsFound(fs.tail, i + 1, j);
      RequiredOfField(fs.head, i);
      RequiredInTail(head, tail, j);
      var d := tail[j];
      assert Table(fs, i)[k] == d;
      assert MatchField(fs.head, d.tag).None?;
    }
  }

  lemma {:induction false} MemberInTable(ms: Members, field: nat, member: nat, tag: nat)
    ensures FindMember(ms, tag).Some? ==> Has(OfMembers(ms, field, member), tag)
    decreases ms
  {
    if ms.MembersOf? {
      MemberInTable(ms.tail, field, member + 1, tag);
      var head := [Descriptor(ms.tag, false, field, member)];
      assert head[0].tag == ms.tag;
      InEither(head, OfMembers(ms.tail, field, member + 1), tag);
    }
  }

  lemma {:induction false} InEither(a: seq<Descriptor>, b: seq<Descriptor>, tag: nat)
    ensures Has(a, tag) || Has(b, tag) ==> Has(a + b, tag)
  {
    var ab := a + b;
    if k :| 0 <= k < |a| && a[k].tag == tag {
      assert ab[k].tag == tag;
    }
    if k :| 0 <= k < |b| && b[k].tag == tag {
      assert ab[|a| + k].tag == tag;
    }
  }

  lemma {:induction false} TagInTable(fs: Fields, i: nat, tag: nat)
    ensures FindField(fs, tag).Some? ==> Has(Table(fs, i), tag)
    decreases fs
  {
    if fs.FieldsOf? {
      TagInTable(fs.tail, i + 1, tag);
      InEither(OfField(fs.head, i), Table(fs.tail, i + 1), tag);
      if fs.head.OneOf? {
        MemberInTable(fs.head.members, i, 0, tag);
      } else {
        assert OfField(fs.head, i)[0].tag == fs.head.tag;
      }
    }
  }

  /** The table has a tag exactly when the schema has it. */
  lemma {:induction false} TableHasTags(fs: Fields, tag: nat)
    requires SchemaOk(fs)
    ensures FindField(fs, tag).Some? <==> Has(Table(fs, 0), tag)
  {
    TagInTable(fs, 0, tag);
    if k :| 0 <= k < |Table(fs, 0)| && Table(fs, 0)[k].tag == tag {
      EntryIsFound(fs, 0, k);
    }
  }

  // ---------- The iterator ----------

  class FieldIter {
    const table: seq<Descriptor>
    var pos: nat
    var requiredIndex: nat

    /** On an entry, unless the message type is empty, with the required fields before it counted. */
    ghost predicate Valid()
      reads this
    {
      && (table == [] ==> pos == 0) && (table != [] ==> pos < |table|)
      && requiredIndex == RequiredBefore(table, pos)
    }

    constructor (fs: Fields)
      ensures Valid() && this.table == Table(fs, 0) && pos == 0
    {
      this.table, pos, requiredIndex := Table(fs, 0), 0, 0;
    }

    /** One step round the circle; false when that comes back to the beginning. */
    method Next() returns (more: bool)
      requires Valid()
      modifies this
      ensures Valid() && (more <==> old(pos) + 1 < |table|) && pos == if more then old(pos) + 1 else 0
    {
      if table == [] {
        return false;
      }
      var previous := table[pos];
      if pos + 1 == |table| {
        pos, requiredIndex := 0, 0;
        return false;
      }
      pos := pos + 1;
      if previous.required {
        requiredIndex := requiredIndex + 1;
      }
      more := true;
    }

    /** Search once round, from wherever the iterator is. With no fields, the terminator of the table
        is all there is. */
    method Find(tag: nat) returns (found: bool)
      requires Valid()
      modifies this
      ensures Valid() && (found <==> Has(table, tag) || (table == [] && tag == 0))
      ensures if found && table != [] then table[pos].tag == tag else pos == old(pos)
    {
      var start := pos;
      if table == [] {
        return tag == 0;
      }
      ghost var wrapped := false;
      while true
        invariant Valid() && if wrapped then pos < start else start <= pos
        invariant forall i | start <= i < |table| && (wrapped || i < pos) :: table[i].tag != tag
        invariant forall i | 0 <= i < pos && wrapped :: table[i].tag != tag
        decreases !wrapped, if wrapped then start - pos else |table| - pos
      {
        if table[pos].tag == tag {
          return true;
        }
        var more := Next();
        wrapped := wrapped || !more;
        if pos == start {
          return false;
        }
      }
    }

    /** From any place, the search ends where the schema says, with the number of required fields
        before that. */
    method FindInSchema(fs: Fields, tag: nat) returns (found: bool)
      requires Valid() && SchemaOk(fs) && table == Table(fs, 0)
      modifies this
      ensures Valid() && (found <==> FindField(fs, tag).Some? || (fs.NoFields? && tag == 0))
      ensures found && fs.FieldsOf? ==>
                && pos < |table| && FindField(fs, tag) == Some((table[pos].field, table[pos].member))
                && table[pos].required == FieldAt(fs, table[pos].field).Required?
                && requiredIndex == RequiredIndex(fs, table[pos].field)
    {
      hide SchemaOk, Table;
      found := Find(tag);
      TableHasTags(fs, tag);
      TableOfNothing(fs, tag);
      if found && table != [] {
        EntryIsFound(fs, 0, pos);
      }
    }

    /** Go on to the last entry, and count all required fields. */
    method CountRequired(fs: Fields) returns (count: nat)
      requires Valid() && table == Table(fs, 0)
      modifies this
      ensures Valid() && count == RequiredIndex(fs, Count(fs))
    {
      hide Table;
      count := 0;
      var last, more := false, true;
      while more
        invariant Valid() && (!more && table == [] ==> count == 0 && !last)
        invariant !more && table != [] ==>
            count == RequiredBefore(table, |table| - 1) && last == table[|table| - 1].required
        decreases more, |table| - pos
      {
        count := requiredIndex;
        last := table != [] && table[pos].required;
        more := Next();
      }
      if last {
        count := count + 1;
      }
      RequiredInTable(fs, 0);
    }
  }

  lemma {:induction false} TableOfNothing(fs: Fields, tag: nat)
    requires SchemaOk(fs)
    ensures fs.NoFields? <==> Table(fs, 0) == []
    ensures Has(Table(fs, 0), tag) ==> Table(fs, 0) != [] && tag > 0
    ensures FindField(fs, tag).Some? ==> fs.FieldsOf?
  {
    if k :| 0 <= k < |Table(fs, 0)| && Table(fs, 0)[k].tag == tag {
      EntryIsFound(fs, 0, k);
    }
  }

  lemma {:induction false} RequiredInTable(fs: Fields, i: nat)
    ensures RequiredBefore(Table(fs, i), |Table(fs, i)|) == RequiredIndex(fs, Count(fs))
    decreases fs
  {
    if fs.FieldsOf? {
      RequiredInTable(fs.tail, i + 1);
      RequiredOfField(fs.head, i);
      RequiredInTail(OfField(fs.head, i), Table(fs.tail, i + 1), |Table(fs.tail, i + 1)|);
    }
  }

  // ---------- Required fields ----------

  lemma {:induction false} RequiredRange(fs: Fields, i: nat)
    requires i < Count(fs)
    ensures RequiredIndex(fs, i) + (if FieldAt(fs, i).Required? then 1 else 0) <= RequiredIndex(fs, Count(fs))
    decreases fs
  {
    if i == 0 {
      assert RequiredIndex(fs, 0) == 0;
    } else {
      RequiredRange(fs.tail, i - 1);
    }
  }

  /** Every number below the count is the number of a required field. */
  lemma {:induction false} RequiredNumbered(fs: Fields, r: nat) returns (i: nat)
    requires r < RequiredIndex(fs, Count(fs))
    ensures i < Count(fs) && FieldAt(fs, i).Required? && RequiredIndex(fs, i) == r
    decreases fs
  {
    if fs.head.Required? && r == 0 {
      i := 0;
    } else {
      var j := RequiredNumbered(fs.tail, if fs.head.Required? then r - 1 else r);
      i := j + 1;
    }
  }

  lemma {:induction false} RequiredApart(fs: Fields, i: nat, j: nat)
    requires i < j < Count(fs) && FieldAt(fs, i).Required?
    ensures RequiredIndex(fs, i) < RequiredIndex(fs, j)
    decreases fs
  {
    if i == 0 {
      assert RequiredIndex(fs, 0) == 0;
    } else {
      RequiredApart(fs.tail, i - 1, j - 1);
    }
  }

  /** The numbers of the required fields that were seen, of those that are recorded. */
  ghost predicate Records(fs: Fields, seen: set<nat>, numbers: set<nat>) {
    && (forall r | r in numbers :: r < MAX_REQUIRED_FIELDS)
    && forall i | 0 <= i < Count(fs) && FieldAt(fs, i).Required? && RequiredIndex(fs, i) < MAX_REQUIRED_FIELDS ::
         i in seen <==> RequiredIndex(fs, i) in numbers
  }

  lemma {:induction false} RecordsMore(fs: Fields, seen: set<nat>, numbers: set<nat>, i: nat)
    requires Records(fs, seen, numbers) && i < Count(fs) && FieldAt(fs, i).Required?
    ensures var r := RequiredIndex(fs, i);
            Records(fs, seen + {i}, if r < MAX_REQUIRED_FIELDS then numbers + {r} else numbers)
  {
    forall j | 0 <= j < Count(fs) && FieldAt(fs, j).Required? && j != i
        ensures RequiredIndex(fs, j) != RequiredIndex(fs, i) {
      if j < i {
        RequiredApart(fs, j, i);
      } else {
        RequiredApart(fs, i, j);
      }
    }
  }

  /** The check of the recorded numbers is the check of the fields. */
  lemma {:induction false} RecordsDecide(fs: Fields, seen: set<nat>, numbers: set<nat>)
    requires Records(fs, seen, numbers)
    ensures AllSeen(fs, seen)
        <==> forall r: nat | r < RequiredIndex(fs, Count(fs)) && r < MAX_REQUIRED_FIELDS :: r in numbers
  {
    if AllSeen(fs, seen) {
      forall r: nat | r < RequiredIndex(fs, Count(fs)) && r < MAX_REQUIRED_FIELDS ensures r in numbers {
        var i := RequiredNumbered(fs, r);
      }
    }
    forall i | 0 <= i < Count(fs) && FieldAt(fs, i).Required?
        ensures RequiredIndex(fs, i) < RequiredIndex(fs, Count(fs)) {
      RequiredRange(fs, i);
    }
  }

  // ---------- The decoder ----------

  /** Set all fields to their defaults, then read fields until the input ends. The iterator goes on
      from wherever the field before left it. */
  method Decode(fs: Fields, src: Bytes) returns (r: Option<seq<Slot>>)
    requires SchemaOk(fs)
    ensures r == Decoded(fs, src)
  {
    hide DecodedSlot, GetVarint32, SkipField, AllSeen, FindField, SchemaOk, Table, Records;
    var iter := new FieldIter(fs);
    var slots, numbers: set<nat>, input := Defaults(fs), {}, src;
    ghost var seen: set<nat> := {};
    assert Records(fs, seen, numbers) by { NothingRecorded(fs); }
    while input != []
      invariant iter.Valid() && iter.table == Table(fs, 0) && fresh(iter) && Records(fs, seen, numbers)
      invariant |slots| == Count(fs) && Decoded(fs, src) == DecodedFields(fs, slots, seen, input)
      decreases |input|
    {
      var key := DecodeVarint32(input);
      if key.None? {
        return None;
      }
      var (k, rest) := key.value;
      if k == 0 {
        break;
      }
      var found := iter.FindInSchema(fs, k / 8);
      if !found {
        var skipped := SkipField(k % 8, rest);
        if skipped.None? {
          return None;
        }
        input := skipped.value;
      } else if fs.NoFields? {
        var dropped := DecodeVarint32(rest);
        if dropped.None? {
          return None;
        }
        input := dropped.value.1;
      } else {
        var d := iter.table[iter.pos];
        if d.required {
          RecordsMore(fs, seen, numbers, d.field);
          seen := seen + {d.field};
          if iter.requiredIndex < MAX_REQUIRED_FIELDS {
            numbers := numbers + {iter.requiredIndex};
          }
        }
        var decoded := DecodedSlot(FieldAt(fs, d.field), slots[d.field], k % 8, d.member, rest);
        if decoded.None? {
          return None;
        }
        slots, input := slots[d.field := decoded.value.0], decoded.value.1;
      }
    }
    var count := iter.CountRequired(fs);
    if count > MAX_REQUIRED_FIELDS {
      count := MAX_REQUIRED_FIELDS;
    }
    RecordsDecide(fs, seen, numbers);
    for i := 0 to count
      invariant forall r: nat | r < i :: r in numbers
    {
      if i !in numbers {
        return None;
      }
    }
    r := Some(slots);
  }

  lemma {:induction false} NothingRecorded(fs: Fields)
    ensures Records(fs, {}, {})
  {
  }

  /** What one side sends, the other receives: a message that fits its schema goes through any buffer
      that is large enough, and comes out as it was. */
  method SendAndReceive(fs: Fields, slots: seq<Slot>, capacity: nat) returns (r: Option<seq<Slot>>)
    requires SchemaOk(fs) && Fits(fs, slots)
    ensures r == if |Encoded(fs, slots)| <= capacity then Some(slots) else None
  {
    hide SchemaOk, Fits, Encodable, Encoded, Decoded;
    FittingIsEncodable(fs, slots);
    MessageRoundTrip(fs, slots);
    var ok, b := EncodeToBuffer(fs, slots, capacity);
    if !ok {
      return None;
    }
    r := Decode(fs, b);
  }
}
