/** Write batches: operations in the bytes that the log holds, and iterating over them. */
module WriteBatches {
  import opened Format
  import opened Coding
  import opened KeyEncoding
  import opened Database

  /** An operation as a batch holds it. */
  datatype Record = PutRecord(key: Bytes, value: Bytes) | DeleteRecord(key: Bytes)

  const HEADER_SIZE: nat := 12    // the sequence number and the count

  const TAG_DELETION: nat := 0

  const TAG_VALUE: nat := 1

  function EncodedRecord(r: Record): (b: Bytes)
    ensures b != []
  {
    match r
    case PutRecord(key, value) => [TAG_VALUE] + (LengthPrefixed(key) + LengthPrefixed(value))
    case DeleteRecord(key) => [TAG_DELETION] + LengthPrefixed(key)
  }

  function EncodedRecords(rs: seq<Record>): Bytes {
    if rs == [] then [] else EncodedRecords(rs[..|rs| - 1]) + EncodedRecord(rs[|rs| - 1])
  }

  function EncodedBatch(sequence: nat, rs: seq<Record>): Bytes {
    LittleEndian(sequence, 8) + LittleEndian(|rs|, 4) + EncodedRecords(rs)
  }

  function SequenceOf(rep: Bytes): nat
    requires |rep| >= HEADER_SIZE
  {
    FromLittleEndian(rep[..8])
  }

  function CountOf(rep: Bytes): nat
    requires |rep| >= HEADER_SIZE
  {
    FromLittleEndian(rep[8..HEADER_SIZE])
  }

  // ---------- Iterating ----------

  /** The next record and the bytes behind it, or why there is none. */
  function NextRecord(input: Bytes): (r: Result<(Record, Bytes)>)
    requires input != []
    ensures r.Ok? ==> |r.value.1| < |input|
  {
    if input[0] as nat == TAG_VALUE then
      match GetLengthPrefixedSlice(input[1..])
      case None => Err(Corruption("bad WriteBatch Put"))
      case Some((key, rest)) =>
        match GetLengthPrefixedSlice(rest)
        case None => Err(Corruption("bad WriteBatch Put"))
        case Some((value, rest')) => Ok((PutRecord(key, value), rest'))
    else if input[0] as nat == TAG_DELETION then
      match GetLengthPrefixedSlice(input[1..])
      case None => Err(Corruption("bad WriteBatch Delete"))
      case Some((key, rest)) => Ok((DeleteRecord(key), rest))
    else Err(Corruption("unknown WriteBatch tag"))
  }

  /** A record is refused exactly when its tag is unknown, or a length is malformed or too great. */
  lemma {:induction false} RecordRefused(input: Bytes)
    requires input != []
    ensures NextRecord(input).Err? <==>
        || input[0] as nat !in {TAG_VALUE, TAG_DELETION} || GetLengthPrefixedSlice(input[1..]).None?
        || (input[0] as nat == TAG_VALUE
            && GetLengthPrefixedSlice(GetLengthPrefixedSlice(input[1..]).value.1).None?)
    ensures NextRecord(input).Ok? ==>
        (NextRecord(input).value.0.PutRecord? <==> input[0] as nat == TAG_VALUE)
        && NextRecord(input).value.0.key == GetLengthPrefixedSlice(input[1..]).value.0
  {
    hide GetLengthPrefixedSlice;
  }

  /** The records up to the first that is malformed, and what is wrong with that. */
  function RecordsIn(input: Bytes): (seq<Record>, Option<Error>)
    decreases |input|
  {
    if input == [] then ([], None)
    else
      match NextRecord(input)
      case Err(e) => ([], Some(e))
      case Ok((r, rest)) =>
        var (rs, e) := RecordsIn(rest);
        ([r] + rs, e)
  }

  /** What a handler is told, and how that ends. */
  function Iterated(rep: Bytes): (seq<Record>, Option<Error>) {
    if |rep| < HEADER_SIZE then ([], Some(Corruption("malformed WriteBatch (too small)")))
    else
      var (rs, e) := RecordsIn(rep[HEADER_SIZE..]);
      (rs, if e.None? && |rs| != CountOf(rep) then Some(Corruption("WriteBatch has wrong count")) else e)
  }

  predicate FitsRecord(r: Record) {
    |r.key| < TWO_32 && (r.PutRecord? ==> |r.value| < TWO_32)
  }

  lemma {:induction false} RecordRoundTrip(r: Record, rest: Bytes)
    requires FitsRecord(r)
    ensures NextRecord(EncodedRecord(r) + rest) == Ok((r, rest))
  {
    hide LengthPrefixed, GetLengthPrefixedSlice;
    if r.PutRecord? {
      BehindTag(TAG_VALUE, LengthPrefixed(r.key) + LengthPrefixed(r.value), rest);
      assert LengthPrefixed(r.key) + LengthPrefixed(r.value) + rest
          == LengthPrefixed(r.key) + (LengthPrefixed(r.value) + rest);
      LengthPrefixedRoundTrip(r.key, LengthPrefixed(r.value) + rest);
      LengthPrefixedRoundTrip(r.value, rest);
    } else {
      BehindTag(TAG_DELETION, LengthPrefixed(r.key), rest);
      LengthPrefixedRoundTrip(r.key, rest);
    }
  }

  lemma {:induction false} BehindTag(tag: Byte, b: Bytes, rest: Bytes)
    ensures ([tag] + b + rest)[0] == tag && ([tag] + b + rest)[1..] == b + rest
  {
  }

  lemma {:induction false} RecordsRoundTrip(rs: seq<Record>, rest: Bytes)
    requires forall i | 0 <= i < |rs| :: FitsRecord(rs[i])
    ensures RecordsIn(EncodedRecords(rs) + rest) == (rs + RecordsIn(rest).0, RecordsIn(rest).1)
    decreases |rs|
  {
    hide EncodedRecord, NextRecord, FitsRecord, RecordsIn;
    if rs == [] {
      assert EncodedRecords(rs) + rest == rest && rs + RecordsIn(rest).0 == RecordsIn(rest).0;
    } else {
      var n := |rs| - 1;
      var last := EncodedRecord(rs[n]);
      assert EncodedRecords(rs) + rest == EncodedRecords(rs[..n]) + (last + rest);
      RecordsRoundTrip(rs[..n], last + rest);
      RecordRoundTrip(rs[n], rest);
      OneRecordIn(last + rest, rs[n], rest);
      assert rs == rs[..n] + [rs[n]];
      assert rs[..n] + ([rs[n]] + RecordsIn(rest).0) == rs + RecordsIn(rest).0;
    }
  }

  lemma {:induction false} OneRecordIn(input: Bytes, r: Record, rest: Bytes)
    requires input != [] && NextRecord(input) == Ok((r, rest))
    ensures RecordsIn(input) == ([r] + RecordsIn(rest).0, RecordsIn(rest).1)
  {
    hide NextRecord;
  }

  /** Iterating over a batch gives what was put in, without an error; its header reads back. */
  lemma {:induction false} BatchRoundTrip(sequence: nat, rs: seq<Record>)
    requires sequence < TWO_64 && |rs| < TWO_32 && forall i | 0 <= i < |rs| :: FitsRecord(rs[i])
    ensures var rep := EncodedBatch(sequence, rs);
            && |rep| >= HEADER_SIZE && Iterated(rep) == (rs, None) && SequenceOf(rep) == sequence
                && CountOf(rep) == |rs|
  {
    hide EncodedRecords, RecordsIn, FitsRecord, LittleEndian, FromLittleEndian;
    var rep := EncodedBatch(sequence, rs);
    FixedCapacities();
    LittleEndianRoundTrip(sequence, 8);
    LittleEndianRoundTrip(|rs|, 4);
    assert rep[..8] == LittleEndian(sequence, 8) && rep[8..HEADER_SIZE] == LittleEndian(|rs|, 4);
    assert rep[HEADER_SIZE..] == EncodedRecords(rs);
    RecordsRoundTrip(rs, []);
    NothingIn();
    assert EncodedRecords(rs) + [] == EncodedRecords(rs) && rs + [] == rs;
  }

  lemma {:induction false} NothingIn()
    ensures RecordsIn([]) == ([], None)
  {
  }

  /** Tell a handler of every record, until one is malformed. */
  method Iterate(rep: Bytes) returns (told: seq<Record>, error: Option<Error>)
    ensures (told, error) == Iterated(rep)
  {
    hide RecordsIn, NextRecord;
    told := [];
    if |rep| < HEADER_SIZE {
      return told, Some(Corruption("malformed WriteBatch (too small)"));
    }
    var input, found := rep[HEADER_SIZE..], 0;
    assert [] + RecordsIn(input).0 == RecordsIn(input).0;
    while input != []
      invariant found == |told|
      invariant RecordsIn(rep[HEADER_SIZE..]) == (told + RecordsIn(input).0, RecordsIn(input).1)
      decreases |input|
    {
      var next := NextRecord(input);
      found := found + 1;
      if next.Err? {
        MalformedIn(input);
        assert told + [] == told;
        return told, Some(next.error);
      }
      var (r, rest) := next.value;
      OneRecordIn(input, r, rest);
      assert told + ([r] + RecordsIn(rest).0) == (told + [r]) + RecordsIn(rest).0;
      told, input := told + [r], rest;
    }
    NothingIn();
    assert told + [] == told;
    error := if found != CountOf(rep) then Some(Corruption("WriteBatch has wrong count")) else None;
  }

  lemma {:induction false} MalformedIn(input: Bytes)
    requires input != [] && NextRecord(input).Err?
    ensures RecordsIn(input) == ([], Some(NextRecord(input).error))
  {
    hide NextRecord;
  }

  // ---------- Building ----------

  class WriteBatch {
    var rep: Bytes
    ghost var sequence: nat
    ghost var records: seq<Record>

    ghost predicate Valid()
      reads this
    {
      sequence < TWO_64 && |records| < TWO_32 && rep == EncodedBatch(sequence, records)
    }

    constructor ()
      ensures Valid() && sequence == 0 && records == []
    {
      rep, sequence, records := seq(HEADER_SIZE, _ => 0), 0, [];
      new;
      EmptyHeader();
    }

    method SetSequence(s: nat)
      requires Valid() && s < TWO_64
      modifies this
      ensures Valid() && sequence == s && records == old(records)
    {
      hide LittleEndian, EncodedRecords;
      rep := LittleEndian(s, 8) + rep[8..];
      sequence := s;
    }

    method AddToCount(n: nat)
      requires sequence < TWO_64 && |records| + n < TWO_32 && rep == EncodedBatch(sequence, records)
      modifies `rep
      ensures rep == LittleEndian(sequence, 8) + LittleEndian(|records| + n, 4) + EncodedRecords(records)
    {
      hide LittleEndian, FromLittleEndian, EncodedRecords;
      FixedCapacities();
      LittleEndianRoundTrip(|records|, 4);
      assert rep[8..HEADER_SIZE] == LittleEndian(|records|, 4);
      assert rep[HEADER_SIZE..] == EncodedRecords(records);
      rep := rep[..8] + LittleEndian(CountOf(rep) + n, 4) + rep[HEADER_SIZE..];
    }

    method Put(key: Bytes, value: Bytes)
      requires Valid() && |records| + 1 < TWO_32
      modifies this
      ensures Valid() && sequence == old(sequence) && records == old(records) + [PutRecord(key, value)]
    {
      hide LittleEndian, LengthPrefixed, EncodedRecords;
      AddToCount(1);
      ghost var counted := rep;
      rep := rep + [TAG_VALUE] + LengthPrefixed(key) + LengthPrefixed(value);
      assert rep == counted + EncodedRecord(PutRecord(key, value));
      RecordsSnoc(records, PutRecord(key, value));
      records := records + [PutRecord(key, value)];
    }

    method Delete(key: Bytes)
      requires Valid() && |records| + 1 < TWO_32
      modifies this
      ensures Valid() && sequence == old(sequence) && records == old(records) + [DeleteRecord(key)]
    {
      hide LittleEndian, LengthPrefixed, EncodedRecords;
      AddToCount(1);
      ghost var counted := rep;
      rep := rep + [TAG_DELETION] + LengthPrefixed(key);
      assert rep == counted + EncodedRecord(DeleteRecord(key));
      RecordsSnoc(records, DeleteRecord(key));
      records := records + [DeleteRecord(key)];
    }

    /** Copy the records of another batch behind these. */
    method Append(source: WriteBatch)
      requires Valid() && source.Valid() && source != this && |records| + |source.records| < TWO_32
      modifies this
      ensures Valid() && sequence == old(sequence) && records == old(records) + source.records
    {
      hide LittleEndian, FromLittleEndian, EncodedRecords;
      FixedCapacities();
      LittleEndianRoundTrip(|source.records|, 4);
      assert source.rep[8..HEADER_SIZE] == LittleEndian(|source.records|, 4);
      assert source.rep[HEADER_SIZE..] == EncodedRecords(source.records);
      AddToCount(CountOf(source.rep));
      RecordsAppend(records, source.records);
      rep := rep + source.rep[HEADER_SIZE..];
      records := records + source.records;
    }
  }

  lemma {:induction false} EmptyHeader()
    ensures EncodedBatch(0, []) == seq(HEADER_SIZE, _ => 0)
  {
    ZeroBytes(8);
    ZeroBytes(4);
  }

  lemma {:induction false} ZeroBytes(size: nat)
    ensures LittleEndian(0, size) == seq(size, _ => 0)
  {
    if size > 0 {
      ZeroBytes(size - 1);
    }
  }

  lemma {:induction false} RecordsSnoc(rs: seq<Record>, r: Record)
    ensures EncodedRecords(rs + [r]) == EncodedRecords(rs) + EncodedRecord(r)
  {
    assert (rs + [r])[..|rs|] == rs;
  }

  lemma {:induction false} RecordsAppend(a: seq<Record>, b: seq<Record>)
    ensures EncodedRecords(a + b) == EncodedRecords(a) + EncodedRecords(b)
    decreases |b|
  {
    hide EncodedRecord;
    if b == [] {
      assert a + b == a;
    } else {
      RecordsAppend(a, b[..|b| - 1]);
      assert (a + b)[..|a + b| - 1] == a + b[..|b| - 1];
    }
  }

  // ---------- The operations of the store ----------

  function RecordOf(names: Naming, op: Op): Record {
    match op
    case PutOp(u, v) => PutRecord(names.user(u), v)
    case DeleteOp(u) => DeleteRecord(names.user(u))
  }

  function RecordsOf(names: Naming, ops: seq<Op>): seq<Record> {
    seq(|ops|, i requires 0 <= i < |ops| => RecordOf(names, ops[i]))
  }

  /** Ranks are in the order of their bytes, so that records tell operations apart. */
  lemma {:induction false} RecordsTellOps(names: Naming, users: set<UserKey>, a: seq<Op>, b: seq<Op>)
    requires Ranks(names, users) && (forall i | 0 <= i < |a| :: a[i].user in users)
    requires forall i | 0 <= i < |b| :: b[i].user in users
    ensures RecordsOf(names, a) == RecordsOf(names, b) <==> a == b
  {
    hide Ranks;
    if RecordsOf(names, a) == RecordsOf(names, b) {
      assert |a| == |RecordsOf(names, a)| == |RecordsOf(names, b)| == |b|;
      forall i | 0 <= i < |a| ensures a[i] == b[i] {
        assert RecordsOf(names, a)[i] == RecordsOf(names, b)[i];
        SameRankSameBytes(names, users, a[i].user, b[i].user);
      }
    }
  }
}
